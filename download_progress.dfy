/**
 * The `downloading` branch of yt-dlp's progress hook, which both variants of the
 * download stage share word for word (backend/download_service/utils.py and
 * backend/download_service/utils_new.py): the share of bytes received, its scaling into
 * the 10-50 band of the task's progress, and the status message.
 */
module DownloadProgress {
  import opened Wrappers
  import opened Text
  import opened TaskStore

  /**
   * The dictionary yt-dlp hands its progress hooks, by its `status`. An optional field
   * is None where the key is absent.
   */
  datatype HookEvent =
    | Progress(downloaded: Option<nat>, total: Option<nat>, estimate: Option<nat>,
               speed: Option<real>, eta: Option<int>)
    | Finish
    | Failure(error: Option<string>)
    | OtherStatus

  /**
   * Percentage of the bytes received: against `total_bytes` when it is known and
   * positive, else against `total_bytes_estimate`, else 0.
   */
  function Percent(downloaded: Option<nat>, total: Option<nat>, estimate: Option<nat>): (p: real)
    ensures p >= 0.0
  {
    if downloaded.Some? && total.Some? && total.value > 0 then
      downloaded.value as real / total.value as real * 100.0
    else if downloaded.Some? && estimate.Some? && estimate.value > 0 then
      downloaded.value as real / estimate.value as real * 100.0
    else 0.0
  }

  /** The size the percentage is taken against, if any. */
  function Denominator(total: Option<nat>, estimate: Option<nat>): Option<nat> {
    if total.Some? && total.value > 0 then total
    else if estimate.Some? && estimate.value > 0 then estimate
    else None
  }

  /** `int(10 + progress * 0.4)`: truncation, which is the floor for these values. */
  function ScaledProgress(percent: real): (n: int)
    requires percent >= 0.0
    ensures 10 <= n
    ensures n as real <= 10.0 + percent * 0.4 < n as real + 1.0
  {
    (10.0 + percent * 0.4).Floor
  }

  /** `f"{speed/1024/1024:.2f} MB/s"` for a positive speed, else "calculating...". */
  function SpeedText(speed: Option<real>): string {
    if speed.Some? && speed.value > 0.0 then FormatFixed(speed.value / 1024.0 / 1024.0, 2) + " MB/s"
    else "calculating..."
  }

  /** `f"{eta} seconds"` for a non-zero ETA, else "calculating...". */
  function EtaText(eta: Option<int>): string {
    if eta.Some? && eta.value != 0 then IntToText(eta.value) + " seconds" else "calculating..."
  }

  /** The write the `downloading` branch makes. */
  function DownloadingPatch(e: HookEvent): (p: Patch)
    requires e.Progress?
    ensures p.status == Some(TaskStatus.Downloading)
  {
    var percent := Percent(e.downloaded, e.total, e.estimate);
    Patch(status := Some(TaskStatus.Downloading),
          progress := Some(ScaledProgress(percent) as real),
          message := Some("Downloading... " + FormatFixed(percent, 1) + "% at " + SpeedText(e.speed)
                          + ", ETA: " + EtaText(e.eta)))
  }

  /**
   * While no more bytes have arrived than the size they are measured against, the
   * percentage lies in 0..100 and the progress written in the band 10..50.
   */
  lemma ProgressInBand(e: HookEvent)
    requires e.Progress?
    requires e.downloaded.Some? && Denominator(e.total, e.estimate).Some? ==>
      e.downloaded.value <= Denominator(e.total, e.estimate).value
    ensures 0.0 <= Percent(e.downloaded, e.total, e.estimate) <= 100.0
    ensures var p := DownloadingPatch(e).progress.value; 10.0 <= p <= 50.0
  {
    var percent := Percent(e.downloaded, e.total, e.estimate);
    if e.downloaded.Some? && Denominator(e.total, e.estimate).Some? {
      var d := e.downloaded.value as real;
      var n := Denominator(e.total, e.estimate).value as real;
      assert percent == d / n * 100.0;
      assert d / n <= 1.0;
    }
  }

  /**
   * The progress written never falls while bytes keep arriving against the same size:
   * more bytes downloaded, the same sizes known, no lower progress.
   */
  lemma ProgressMonotone(e: HookEvent, f: HookEvent)
    requires e.Progress? && f.Progress? && e.total == f.total && e.estimate == f.estimate
    requires e.downloaded.Some? && f.downloaded.Some? && e.downloaded.value <= f.downloaded.value
    ensures DownloadingPatch(e).progress.value <= DownloadingPatch(f).progress.value
  {
    var pe := Percent(e.downloaded, e.total, e.estimate);
    var pf := Percent(f.downloaded, f.total, f.estimate);
    if Denominator(e.total, e.estimate).Some? {
      var n := Denominator(e.total, e.estimate).value as real;
      RatioMonotone(e.downloaded.value as real, f.downloaded.value as real, n);
    }
    FloorMonotone(10.0 + pe * 0.4, 10.0 + pf * 0.4);
  }

  lemma RatioMonotone(a: real, b: real, n: real)
    requires 0.0 <= a <= b && n > 0.0
    ensures a / n * 100.0 <= b / n * 100.0
  {
    assert a / n <= b / n;
  }

  lemma FloorMonotone(x: real, y: real)
    requires x <= y
    ensures x.Floor <= y.Floor
  {
  }

  /** The percentage in the message reads back as the percentage rounded to one decimal. */
  lemma MessageShowsPercent(e: HookEvent)
    requires e.Progress?
    ensures var percent := Percent(e.downloaded, e.total, e.estimate);
      exists t: string ::
        DownloadingPatch(e).message == Some("Downloading... " + t + "% at " + SpeedText(e.speed)
                                            + ", ETA: " + EtaText(e.eta))
        && ParseReal(t) == Some(Rounded(percent, 1))
  {
    var percent := Percent(e.downloaded, e.total, e.estimate);
    FormatFixedRoundTrip(percent, 1);
    var t := FormatFixed(percent, 1);
    assert DownloadingPatch(e).message == Some("Downloading... " + t + "% at " + SpeedText(e.speed)
                                               + ", ETA: " + EtaText(e.eta));
  }
}
