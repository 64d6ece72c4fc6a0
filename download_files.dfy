/**
 * What both variants of `download_audio` share (backend/download_service/utils.py and
 * backend/download_service/utils_new.py): the outcome of running yt-dlp, the result
 * triple, and the rule that picks the downloaded file out of the task directory.
 */
module DownloadFiles {
  import opened Wrappers
  import opened Text
  import opened Disk
  import opened TaskStore

  /** How a `subprocess.run` of an external tool ended. */
  datatype RunOutcome =
    | Exited(code: int, stderr: string)
    | TimedOut
    | Crashed(reason: string)

  /** `(success, output_path, error_message)`. */
  datatype DownloadResult = Downloaded(path: string) | DownloadFailed(error: string)

  /** The writes one call of `download_audio` makes to the task record, and what it returns. */
  datatype Plan = Plan(patches: seq<Patch>, result: DownloadResult)

  /** `file.endswith(('.mp3', '.m4a', '.webm', '.opus', '.wav'))`, case-sensitive. */
  predicate HasAudioExtension(name: string) {
    EndsWith(name, ".mp3") || EndsWith(name, ".m4a") || EndsWith(name, ".webm")
    || EndsWith(name, ".opus") || EndsWith(name, ".wav")
  }

  /**
   * The task directory after yt-dlp ran: each name `os.listdir` returns, in its order,
   * with the file it names.
   */
  type Listing = seq<(string, FileEntry)>

  /** The files with an audio extension, as paths under `dir`, in listing order. */
  function AudioFiles(dir: string, listing: Listing): (r: seq<(string, FileEntry)>)
    ensures |r| <= |listing|
  {
    if |listing| == 0 then []
    else
      var last := listing[|listing| - 1];
      AudioFiles(dir, listing[..|listing| - 1])
      + (if HasAudioExtension(last.0) then [(Join(dir, last.0), last.1)] else [])
  }

  /** The index of the first name with an audio extension. */
  function FirstAudio(listing: Listing): (k: Option<nat>)
    ensures k.Some? ==>
      k.value < |listing| && HasAudioExtension(listing[k.value].0)
      && forall j :: 0 <= j < k.value ==> !HasAudioExtension(listing[j].0)
    ensures k.None? ==> forall j :: 0 <= j < |listing| ==> !HasAudioExtension(listing[j].0)
  {
    if |listing| == 0 then None
    else if HasAudioExtension(listing[0].0) then Some(0)
    else match FirstAudio(listing[1..])
      case None => None
      case Some(k) => Some(k + 1)
  }

  /**
   * The collected list is empty exactly when no name has an audio extension, and
   * otherwise starts with the first such name.
   */
  lemma {:induction false} AudioFilesStart(dir: string, listing: Listing)
    ensures |AudioFiles(dir, listing)| == 0 <==> FirstAudio(listing).None?
    ensures FirstAudio(listing).Some? ==>
      var k := FirstAudio(listing).value;
      AudioFiles(dir, listing)[0] == (Join(dir, listing[k].0), listing[k].1)
  {
    if |listing| > 0 {
      var init := listing[..|listing| - 1];
      var last := listing[|listing| - 1];
      AudioFilesStart(dir, init);
      FirstAudioSnoc(listing);
      if FirstAudio(init).Some? {
        var k := FirstAudio(init).value;
        assert init[k] == listing[k];
        assert AudioFiles(dir, listing)[0] == AudioFiles(dir, init)[0];
      }
    }
  }

  /** Appending a name keeps an earlier audio name first, and otherwise may supply it. */
  lemma FirstAudioSnoc(listing: Listing)
    requires |listing| > 0
    ensures var init := listing[..|listing| - 1];
      FirstAudio(listing) ==
        if FirstAudio(init).Some? then FirstAudio(init)
        else if HasAudioExtension(listing[|listing| - 1].0) then Some(|listing| - 1)
        else None
  {
    var init := listing[..|listing| - 1];
    assert forall j :: 0 <= j < |init| ==> listing[j] == init[j];
    if FirstAudio(init).Some? {
      FirstAudioIsLeast(listing, FirstAudio(init).value);
    } else if HasAudioExtension(listing[|listing| - 1].0) {
      FirstAudioIsLeast(listing, |listing| - 1);
    } else {
      assert forall j :: 0 <= j < |listing| ==> !HasAudioExtension(listing[j].0);
    }
  }

  /** An audio name with no audio name before it is the one `FirstAudio` finds. */
  lemma FirstAudioIsLeast(listing: Listing, k: nat)
    requires k < |listing| && HasAudioExtension(listing[k].0)
    requires forall j :: 0 <= j < k ==> !HasAudioExtension(listing[j].0)
    ensures FirstAudio(listing) == Some(k)
  {
    var f := FirstAudio(listing);
    assert f.Some?;
    assert !(f.value < k);
    assert !(f.value > k);
  }

  /** Every collected file has an audio extension and comes from the listing. */
  lemma {:induction false} AudioFilesSound(dir: string, listing: Listing, i: nat)
    requires i < |AudioFiles(dir, listing)|
    ensures exists j ::
      0 <= j < |listing| && HasAudioExtension(listing[j].0)
      && AudioFiles(dir, listing)[i] == (Join(dir, listing[j].0), listing[j].1)
  {
    var init := listing[..|listing| - 1];
    if i < |AudioFiles(dir, init)| {
      AudioFilesSound(dir, init, i);
      var j :| 0 <= j < |init| && HasAudioExtension(init[j].0)
        && AudioFiles(dir, init)[i] == (Join(dir, init[j].0), init[j].1);
      assert listing[j] == init[j];
    } else {
      var j := |listing| - 1;
      assert AudioFiles(dir, listing)[i] == (Join(dir, listing[j].0), listing[j].1);
    }
  }

  /**
   * The list `download_audio` builds by appending, in a loop over the listing, each
   * name with an audio extension joined to the task directory.
   */
  method CollectAudioFiles(dir: string, listing: Listing) returns (files: seq<(string, FileEntry)>)
    ensures files == AudioFiles(dir, listing)
  {
    files := [];
    var i := 0;
    while i < |listing|
      invariant 0 <= i <= |listing|
      invariant files == AudioFiles(dir, listing[..i])
    {
      var (name, entry) := listing[i];
      assert listing[..i + 1][..i] == listing[..i];
      if HasAudioExtension(name) {
        files := files + [(Join(dir, name), entry)];
      }
      i := i + 1;
    }
    assert listing[..i] == listing;
  }

  /** `max(paths, key=os.path.getsize)`: the first of the largest files. */
  function FirstLargest(listing: Listing): (k: nat)
    requires |listing| > 0
    ensures k < |listing|
    ensures forall j :: 0 <= j < |listing| ==> listing[j].1.Size() <= listing[k].1.Size()
    ensures forall j :: 0 <= j < k ==> listing[j].1.Size() < listing[k].1.Size()
  {
    if |listing| == 1 then 0
    else
      var init := listing[..|listing| - 1];
      var k := FirstLargest(init);
      assert forall j :: 0 <= j < |init| ==> listing[j] == init[j];
      if listing[|listing| - 1].1.Size() > listing[k].1.Size() then |listing| - 1 else k
  }

  /** The file `download_audio` settles on before its final validation. */
  datatype Pick =
    | NothingDownloaded
    | Picked(path: string, file: FileEntry, bySize: bool)

  /**
   * The first file with an audio extension; failing that, the largest file, which must
   * still pass validation; failing that, nothing.
   */
  function PickFile(dir: string, listing: Listing): (p: Pick)
    ensures p.NothingDownloaded? <==> |listing| == 0
  {
    var audio := AudioFiles(dir, listing);
    if |audio| > 0 then Picked(audio[0].0, audio[0].1, false)
    else if |listing| > 0 then
      var k := FirstLargest(listing);
      Picked(Join(dir, listing[k].0), listing[k].1, true)
    else NothingDownloaded
  }

  /** An audio extension wins over size: the first such name is picked. */
  lemma PickPrefersAudio(dir: string, listing: Listing)
    requires FirstAudio(listing).Some?
    ensures var k := FirstAudio(listing).value;
      PickFile(dir, listing) == Picked(Join(dir, listing[k].0), listing[k].1, false)
  {
    AudioFilesStart(dir, listing);
  }

  /** With no audio extension, the pick is the first file of the largest size. */
  lemma PickLargestOtherwise(dir: string, listing: Listing)
    requires FirstAudio(listing).None? && |listing| > 0
    ensures PickFile(dir, listing).bySize
    ensures exists k ::
      0 <= k < |listing| && PickFile(dir, listing).path == Join(dir, listing[k].0)
      && PickFile(dir, listing).file == listing[k].1
      && (forall j :: 0 <= j < |listing| ==> listing[j].1.Size() <= listing[k].1.Size())
      && (forall j :: 0 <= j < k ==> listing[j].1.Size() < listing[k].1.Size())
  {
    AudioFilesStart(dir, listing);
    var k := FirstLargest(listing);
    assert PickFile(dir, listing).path == Join(dir, listing[k].0);
  }
}
