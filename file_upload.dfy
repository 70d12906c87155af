/**
 * The upload drop zone: the allow-list that splits a selection into the
 * files handed on and the files refused, and the message shown for the
 * refused ones.
 */
module FileUpload {
  import opened Common
  import opened Text
  import opened Types
  import opened Lists

  /** A plain-text or PDF media type, or a name ending in `.md` (case-sensitive). */
  predicate IsAccepted(f: BrowserFile)
  {
    f.mediaType == "text/plain" || f.mediaType == "application/pdf" || EndsWith(f.name, ".md")
  }

  /** `acceptedFiles`: the selection filtered by the allow-list. */
  function Accepted(files: seq<BrowserFile>): (r: seq<BrowserFile>)
    ensures |r| <= |files|
    ensures forall i :: 0 <= i < |r| ==> IsAccepted(r[i])
  {
    Filter(files, IsAccepted)
  }

  /** `rejectedFiles`: the files of the selection not included in `acceptedFiles`. */
  function Rejected(files: seq<BrowserFile>): seq<BrowserFile>
  {
    var accepted := Accepted(files);
    Filter(files, f => f !in accepted)
  }

  /**
   * A file is rejected exactly when the allow-list refuses it: the two lists
   * split the selection, in its order, with nothing lost or repeated.
   */
  lemma Partition(files: seq<BrowserFile>)
    ensures Rejected(files) == Filter(files, f => !IsAccepted(f))
    ensures forall i :: 0 <= i < |Rejected(files)| ==> !IsAccepted(Rejected(files)[i])
    ensures multiset(Accepted(files)) + multiset(Rejected(files)) == multiset(files)
    ensures |Accepted(files)| + |Rejected(files)| == |files|
  {
    var accepted := Accepted(files);
    forall i | 0 <= i < |files| ensures (files[i] !in accepted) == !IsAccepted(files[i]) {
      FilterMembers(files, IsAccepted, files[i]);
    }
    FilterCongruent(files, f => f !in accepted, f => !IsAccepted(f));
    FilterSplit(files, IsAccepted, f => !IsAccepted(f));
  }

  /** Choosing more files keeps the earlier choices' verdicts, in order. */
  lemma PartitionAppend(a: seq<BrowserFile>, b: seq<BrowserFile>)
    ensures Accepted(a + b) == Accepted(a) + Accepted(b)
    ensures Rejected(a + b) == Rejected(a) + Rejected(b)
  {
    FilterAppend(a, b, IsAccepted);
    Partition(a);
    Partition(b);
    Partition(a + b);
    FilterAppend(a, b, f => !IsAccepted(f));
  }

  /** `Invalid file type for: ${names joined by ", "}. Only .txt, .md, and .pdf are allowed.` */
  function RejectionMessage(rejected: seq<BrowserFile>): string
  {
    "Invalid file type for: " + Join(Names(rejected), ", ") + ". Only .txt, .md, and .pdf are allowed."
  }

  /** The message names every refused file. */
  lemma RejectionMessageNames(rejected: seq<BrowserFile>, i: nat)
    requires i < |rejected|
    ensures Contains(RejectionMessage(rejected), rejected[i].name)
  {
    var names := Join(Names(rejected), ", ");
    JoinContainsParts(Names(rejected), ", ", i);
    var k :| OccursAt(names, rejected[i].name, k);
    var prefix := "Invalid file type for: ";
    var m := RejectionMessage(rejected);
    var n := |rejected[i].name|;
    assert m == prefix + names + ". Only .txt, .md, and .pdf are allowed.";
    assert m[|prefix| + k .. |prefix| + k + n] == names[k .. k + n];
    assert OccursAt(m, rejected[i].name, |prefix| + k);
  }

  /** The drop zone's own state: the error line under it. */
  class DropZone {
    var uploadError: Option<string>

    constructor ()
      ensures uploadError == None
    {
      uploadError := None;
    }

    /**
     * `handleFiles`: nothing happens for a missing or empty selection;
     * otherwise the accepted files, if any, are delivered (the value
     * returned here stands for the one call of `onFilesUploaded`), and
     * the error is set exactly when some file was refused, and cleared
     * otherwise.
     */
    method HandleFiles(selection: Option<seq<BrowserFile>>) returns (delivered: Option<seq<BrowserFile>>)
      modifies this
      ensures selection.None? || selection.value == [] ==> delivered == None && uploadError == old(uploadError)
      ensures selection.Some? && selection.value != [] ==>
        var files := selection.value;
        && delivered == (if Accepted(files) == [] then None else Some(Accepted(files)))
        && uploadError == (if Rejected(files) == [] then None else Some(RejectionMessage(Rejected(files))))
    {
      delivered := None;
      if selection.Some? && |selection.value| > 0 {
        var allFiles := selection.value;
        var acceptedFiles := Accepted(allFiles);
        var rejectedFiles := Rejected(allFiles);
        if |acceptedFiles| > 0 {
          delivered := Some(acceptedFiles);
        }
        if |rejectedFiles| > 0 {
          uploadError := Some(RejectionMessage(rejectedFiles));
        } else {
          uploadError := None;
        }
      }
    }
  }

  /**
   * A mixed selection still delivers its valid files while reporting the
   * invalid ones; a selection with no valid file delivers nothing.
   */
  lemma MixedSelection(files: seq<BrowserFile>, i: nat, j: nat)
    requires i < |files| && j < |files| && IsAccepted(files[i]) && !IsAccepted(files[j])
    ensures Accepted(files) != [] && Rejected(files) != []
    ensures files[i] in Accepted(files) && files[j] in Rejected(files)
  {
    FilterMembers(files, IsAccepted, files[i]);
    Partition(files);
    FilterMembers(files, f => !IsAccepted(f), files[j]);
  }
}
