/** The image picker (frontend/src/components/ChessboardDropzone.tsx): which
    dropped files are accepted, the selected file and its preview, and the two
    buttons that are disabled while an analysis runs. */
module Dropzone {
  import opened Common
  import opened Seqs

  datatype File = File(name: string, mimeType: string)

  /** The `accept` table: the MIME types, and the extensions that admit a file
      whatever type the browser reports. */
  const AcceptedMimeTypes: seq<string> := ["image/jpeg", "image/png"]
  const AcceptedExtensions: seq<string> := [".jpeg", ".jpg", ".png"]

  /** ASCII lower case, as the extension comparison uses. */
  function Lower(s: string): (r: string)
    ensures |r| == |s|
    ensures forall i :: 0 <= i < |s| ==> r[i] == (if 'A' <= s[i] <= 'Z' then s[i] - 'A' + 'a' else s[i])
  {
    seq(|s|, i requires 0 <= i < |s| => if 'A' <= s[i] <= 'Z' then (s[i] - 'A' + 'a') as char else s[i])
  }

  predicate EndsWith(s: string, suffix: string)
  {
    |suffix| <= |s| && s[|s| - |suffix|..] == suffix
  }

  /** A file is accepted by its MIME type or by the extension of its name, both
      compared in lower case. */
  predicate Accepts(file: File)
  {
    Lower(file.mimeType) in AcceptedMimeTypes ||
    exists k :: 0 <= k < |AcceptedExtensions| && EndsWith(Lower(file.name), AcceptedExtensions[k])
  }

  /** The files handed to `onDrop` for one drop: each dropped file is tested against
      the `accept` table, and with one file allowed the whole drop is rejected when
      more than one file passes. */
  function AcceptedFiles(dropped: seq<File>): (r: seq<File>)
    ensures |r| <= 1
    ensures |r| == 1 <==> |FilterBy(dropped, Accepts)| == 1
    ensures |r| == 1 ==> r[0] in dropped && Accepts(r[0])
  {
    FilterMembers(dropped, Accepts);
    var passed := FilterBy(dropped, Accepts);
    if |passed| == 1 then passed else []
  }

  /** A drop in which exactly one file is accepted selects that file, whatever else
      was dropped with it. */
  lemma OneAcceptedFileSelected(dropped: seq<File>, i: nat)
    requires i < |dropped| && Accepts(dropped[i])
    requires forall j :: 0 <= j < |dropped| && j != i ==> !Accepts(dropped[j])
    ensures AcceptedFiles(dropped) == [dropped[i]]
  {
    FilterOnly(dropped, Accepts, i);
  }

  /** A drop in which two files are accepted hands nothing to `onDrop`. */
  lemma TwoAcceptedFilesRejected(dropped: seq<File>, i: nat, j: nat)
    requires i < j < |dropped| && Accepts(dropped[i]) && Accepts(dropped[j])
    ensures AcceptedFiles(dropped) == []
  {
    FilterAtLeastTwo(dropped, Accepts, i, j);
  }

  /** A drop in which no file is accepted hands nothing to `onDrop`. */
  lemma NoAcceptedFileRejected(dropped: seq<File>)
    requires forall j :: 0 <= j < |dropped| ==> !Accepts(dropped[j])
    ensures AcceptedFiles(dropped) == []
  {
    FilterNone(dropped, Accepts);
  }

  class Dropzone {
    var selectedFile: Option<File>
    var previewUrl: Option<string>

    /** A file is selected exactly when its preview exists. */
    predicate Valid()
      reads this
    {
      selectedFile.Some? <==> previewUrl.Some?
    }

    /** The empty drop area is shown when no file is selected. */
    predicate ShowsDropArea()
      reads this
    {
      selectedFile.None?
    }

    constructor ()
      ensures Valid() && ShowsDropArea()
      ensures selectedFile.None? && previewUrl.None?
    {
      selectedFile := None;
      previewUrl := None;
    }

    /** `onDrop`: the first accepted file is selected with a fresh preview URL; an
        empty list changes nothing. */
    method OnDrop(acceptedFiles: seq<File>, objectUrl: string)
      requires Valid()
      modifies this
      ensures Valid()
      ensures |acceptedFiles| > 0 ==> selectedFile == Some(acceptedFiles[0]) && previewUrl == Some(objectUrl)
      ensures |acceptedFiles| == 0 ==> selectedFile == old(selectedFile) && previewUrl == old(previewUrl)
    {
      if |acceptedFiles| > 0 {
        var file := acceptedFiles[0];
        selectedFile := Some(file);
        previewUrl := Some(objectUrl);
      }
    }

    /** `handleClear`: back to the empty drop area. */
    method HandleClear()
      modifies this
      ensures Valid() && ShowsDropArea()
      ensures selectedFile.None? && previewUrl.None?
    {
      selectedFile := None;
      previewUrl := None;
    }

    /** The Analyze button: present only with a selected file, disabled while
        analysing; a click hands over the selected file. */
    method ClickAnalyze(isAnalyzing: bool) returns (analyzed: Option<File>)
      ensures analyzed.Some? <==> selectedFile.Some? && !isAnalyzing
      ensures analyzed.Some? ==> analyzed == selectedFile
    {
      if selectedFile.Some? && !isAnalyzing {
        analyzed := selectedFile;
      } else {
        analyzed := None;
      }
    }

    /** The Clear button: present only with a selected file, disabled while
        analysing; returns whether the click reaches `handleClear`. */
    method ClickClear(isAnalyzing: bool) returns (cleared: bool)
      requires Valid()
      modifies this
      ensures Valid()
      ensures cleared <==> old(selectedFile).Some? && !isAnalyzing
      ensures cleared ==> selectedFile.None? && previewUrl.None?
      ensures !cleared ==> selectedFile == old(selectedFile) && previewUrl == old(previewUrl)
    {
      cleared := selectedFile.Some? && !isAnalyzing;
      if cleared {
        HandleClear();
      }
    }
  }

  /** From the empty drop area, Analyze sends a file exactly when one dropped file
      was accepted, and then it sends that file. */
  method DropThenAnalyze(zone: Dropzone, dropped: seq<File>, objectUrl: string) returns (analyzed: Option<File>)
    requires zone.Valid() && zone.ShowsDropArea()
    modifies zone
    ensures zone.Valid()
    ensures analyzed.Some? <==> |FilterBy(dropped, Accepts)| == 1
    ensures analyzed.Some? ==> analyzed.value in dropped && Accepts(analyzed.value)
  {
    zone.OnDrop(AcceptedFiles(dropped), objectUrl);
    analyzed := zone.ClickAnalyze(false);
  }
}
