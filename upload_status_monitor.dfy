/**
 * The terminal status monitor of the uploader: it keeps one status entry per
 * file, in the order files were announced, applies the messages the upload
 * manager sends, and renders a status line per file plus a summary.
 */
module UploadStatusMonitor {
  import opened Wrappers
  import opened Strings

  datatype UploadStatus =
    | Unprocessed
    | PreviouslyUploaded
    | UploadInProgress
    | UploadCompleted
    | MultipartCompletionInProgress
    | UploadFailed

  /** One file's entry: bytes expected, bytes reported so far, and its state. */
  datatype FileStatus = FileStatus(total: int, uploaded: int, status: UploadStatus)

  datatype Key = KeyCtrlC | KeyEscape | KeyCtrlD | OtherKey

  /** The messages the monitor reacts to. */
  datatype Msg =
    | WindowSizeMsg(width: int)
    | AddFileMsg(name: string)
    | UpdateStatusMsg(name: string, total: int, uploaded: int, status: UploadStatus)
    | QuitMsg
    | KeyMsg(key: Key)
    | OtherMsg

  /** What an update asks the program to do next; `Crash` is the nil dereference of an unknown file's entry. */
  datatype Cmd = NoCmd | QuitCmd | Crash

  /** An update message changes some field of the entry it names. */
  predicate Touches(msg: Msg)
    requires msg.UpdateStatusMsg?
  {
    msg.total > 0 || msg.uploaded > 0 || msg.status != Unprocessed
  }

  /** The entry after an update message: a positive total replaces the total, a positive
      count is added to the bytes reported, and any status other than Unprocessed replaces the status. */
  function ApplyUpdate(st: FileStatus, msg: Msg): (r: FileStatus)
    requires msg.UpdateStatusMsg?
    ensures r.total == (if msg.total > 0 then msg.total else st.total)
    ensures r.uploaded - st.uploaded == (if msg.uploaded > 0 then msg.uploaded else 0)
    ensures r.status == (if msg.status != Unprocessed then msg.status else st.status)
  {
    FileStatus(
      if msg.total > 0 then msg.total else st.total,
      if msg.uploaded > 0 then st.uploaded + msg.uploaded else st.uploaded,
      if msg.status != Unprocessed then msg.status else st.status)
  }

  /** A progress value as float64 arithmetic produces it, with the rounding left out:
      a finite percentage, or NaN / an infinity for a zero total. */
  datatype Percent = Value(v: real) | NaN | PosInf | NegInf

  /** `float64(uploaded) * 100 / float64(total)`: 0 / 0 is NaN and any other division by zero an infinity. */
  function Ratio(uploaded: int, total: int): (r: Percent)
    ensures r.Value? <==> total != 0
    ensures r.Value? ==> r.v * total as real == uploaded as real * 100.0
    ensures total == 0 ==> (r == NaN <==> uploaded == 0) && (r == PosInf <==> uploaded > 0)
  {
    if total != 0 then Value(uploaded as real * 100.0 / total as real)
    else if uploaded == 0 then NaN
    else if uploaded > 0 then PosInf
    else NegInf
  }

  /** 2^63: float64 values from here on do not fit an int64. */
  const Int64Bound: real := 9223372036854775808.0

  /**
   * Whether drawing a progress bar of width `bw` at progress `p` panics. The filled count is
   * `min(int(p * bw / 100), bw)` and strings.Repeat panics on a negative count. On amd64 the
   * conversion of NaN, of an infinity or of a value outside int64 gives the smallest int64, and
   * otherwise truncates towards zero; so a negative width, a non-finite product, a product of
   * -1 or less, or one of 2^63 or more panics.
   */
  predicate BarPanics(p: Percent, bw: int) {
    bw < 0 ||
    match p
    case Value(v) => v * bw as real / 100.0 <= -1.0 || v * bw as real / 100.0 >= Int64Bound
    case _ => true
  }

  /** A progress between 0% and 100% on a bar of non-negative width below 2^63 draws without panicking. */
  lemma ProperProgressDraws(v: real, bw: int)
    requires 0.0 <= v <= 100.0 && 0 <= bw && bw as real < Int64Bound
    ensures !BarPanics(Value(v), bw)
  {
    var b := bw as real;
    assert 0.0 <= v * b <= 100.0 * b;
    assert 0.0 <= v * b / 100.0 <= b;
  }

  /** The width of the progress bar of an upload in progress: the window less the name, the
      brackets and the percentage, but at least 10. */
  function BarWidth(name: string, width: int): (bw: int)
    ensures bw >= 10
  {
    if width - |name| - 12 >= 10 then width - |name| - 12 else 10
  }

  /** Drawing a file's line panics: an upload in progress whose progress bar panics (the other
      lines are right-aligned texts, which a negative width only left-aligns). */
  predicate LinePanics(name: string, st: FileStatus, width: int) {
    st.status == UploadInProgress && BarPanics(Ratio(st.uploaded, st.total), BarWidth(name, width))
  }

  /** Drawing the `i`-th listed file panics. */
  predicate PanicsAt(names: seq<string>, m: map<string, FileStatus>, width: int, i: int)
    requires forall k :: k in names ==> k in m
  {
    0 <= i < |names| && LinePanics(names[i], m[names[i]], width)
  }

  /** Some file among `names` cannot be drawn. */
  predicate AnyPanics(names: seq<string>, m: map<string, FileStatus>, width: int)
    requires forall k :: k in names ==> k in m
  {
    names != [] &&
    (AnyPanics(names[..|names| - 1], m, width) || LinePanics(names[|names| - 1], m[names[|names| - 1]], width))
  }

  lemma {:induction false} AnyPanicsIff(names: seq<string>, m: map<string, FileStatus>, width: int)
    requires forall k :: k in names ==> k in m
    ensures AnyPanics(names, m, width) <==> exists i :: PanicsAt(names, m, width, i)
  {
    if names != [] {
      var init := names[..|names| - 1];
      AnyPanicsIff(init, m, width);
      if exists i :: PanicsAt(init, m, width, i) {
        var i :| PanicsAt(init, m, width, i);
        assert init[i] == names[i];
        assert PanicsAt(names, m, width, i);
      }
      if LinePanics(names[|names| - 1], m[names[|names| - 1]], width) {
        assert PanicsAt(names, m, width, |names| - 1);
      }
      if exists i :: PanicsAt(names, m, width, i) {
        var i :| PanicsAt(names, m, width, i);
        if i < |init| {
          assert init[i] == names[i];
          assert PanicsAt(init, m, width, i);
        }
      }
    }
  }

  /** An empty file in progress with nothing reported has progress 0 * 100 / 0, NaN, and drawing
      it panics whatever the window width. */
  lemma EmptyFileInProgressPanics(names: seq<string>, m: map<string, FileStatus>, width: int, i: int)
    requires forall k :: k in names ==> k in m
    requires 0 <= i < |names| && m[names[i]] == FileStatus(0, 0, UploadInProgress)
    ensures PanicsAt(names, m, width, i)
  {
  }

  /** The text shown after a file name for every status except UploadInProgress. */
  function StatusText(status: UploadStatus): string
    requires status != UploadInProgress
  {
    match status
    case Unprocessed => "Preparing for upload"
    case PreviouslyUploaded => "Previously uploaded, skipping"
    case UploadCompleted => "Upload completed"
    case MultipartCompletionInProgress => "Completing multipart upload"
    case UploadFailed => "Upload failed"
  }

  /** One file's line; the progress-bar line of an upload in progress (floating-point percentage
      and bar) is produced by `progressLine`. */
  function FileLine(name: string, st: FileStatus, width: int, progressLine: (string, FileStatus, int) -> string): string {
    if st.status == UploadInProgress then progressLine(name, st, width)
    else name + ":" + PadField(StatusText(st.status), width - |name| - 1) + "\n"
  }

  /** The per-file lines for `names`, in order. */
  function Lines(names: seq<string>, m: map<string, FileStatus>, width: int,
                 progressLine: (string, FileStatus, int) -> string): string
    requires forall k :: k in names ==> k in m
  {
    if names == [] then ""
    else
      var last := names[|names| - 1];
      Lines(names[..|names| - 1], m, width, progressLine) + FileLine(last, m[last], width, progressLine)
  }

  /** Number of files among `names` whose entry has `status`. */
  function CountStatus(names: seq<string>, m: map<string, FileStatus>, status: UploadStatus): nat
    requires forall k :: k in names ==> k in m
  {
    if names == [] then 0
    else
      var last := names[|names| - 1];
      CountStatus(names[..|names| - 1], m, status) + (if m[last].status == status then 1 else 0)
  }

  /** The summary line: totals, and the remaining count when some file is neither skipped nor completed. */
  function Summary(total: int, skipped: int, success: int): string {
    "Total: " + FormatInt(total) + ", Skipped: " + FormatInt(skipped) + ", Success: " + FormatInt(success) +
    (if success + skipped < total then ", Remaining: " + FormatInt(total - success - skipped) else "") + "\n"
  }

  lemma {:induction false} CountsBounded(names: seq<string>, m: map<string, FileStatus>)
    requires forall k :: k in names ==> k in m
    ensures CountStatus(names, m, UploadCompleted) + CountStatus(names, m, PreviouslyUploaded) <= |names|
  {
    if names != [] {
      CountsBounded(names[..|names| - 1], m);
    }
  }

  /** The summary shows a remaining count exactly when some listed file is neither previously
      uploaded nor completed. */
  lemma {:induction false} RemainingIffPending(names: seq<string>, m: map<string, FileStatus>)
    requires forall k :: k in names ==> k in m
    ensures CountStatus(names, m, UploadCompleted) + CountStatus(names, m, PreviouslyUploaded) < |names|
      <==> exists i :: 0 <= i < |names| && m[names[i]].status !in {UploadCompleted, PreviouslyUploaded}
  {
    if names != [] {
      var init := names[..|names| - 1];
      RemainingIffPending(init, m);
      CountsBounded(init, m);
      if exists i :: 0 <= i < |init| && m[init[i]].status !in {UploadCompleted, PreviouslyUploaded} {
        var i :| 0 <= i < |init| && m[init[i]].status !in {UploadCompleted, PreviouslyUploaded};
        assert names[i] == init[i];
      }
      if exists i :: 0 <= i < |names| && m[names[i]].status !in {UploadCompleted, PreviouslyUploaded} {
        var i :| 0 <= i < |names| && m[names[i]].status !in {UploadCompleted, PreviouslyUploaded};
        if i < |init| {
          assert init[i] == names[i];
        }
      }
    }
  }

  lemma PrefixStep(names: seq<string>, m: map<string, FileStatus>, i: int, width: int,
                   progressLine: (string, FileStatus, int) -> string)
    requires 0 <= i < |names|
    requires forall k :: k in names ==> k in m
    ensures forall k :: k in names[..i + 1] ==> k in m
    ensures Lines(names[..i + 1], m, width, progressLine) ==
      Lines(names[..i], m, width, progressLine) + FileLine(names[i], m[names[i]], width, progressLine)
    ensures forall st :: (CountStatus(names[..i + 1], m, st) ==
      CountStatus(names[..i], m, st) + (if m[names[i]].status == st then 1 else 0))
    ensures AnyPanics(names[..i + 1], m, width) == (AnyPanics(names[..i], m, width) || LinePanics(names[i], m[names[i]], width))
  {
    assert names[..i + 1][..i] == names[..i];
  }

  /** One turn of View's loop over a file that can be drawn: its line and the counts so far. */
  method DrawLine(names: seq<string>, m: map<string, FileStatus>, width: int,
                  progressLine: (string, FileStatus, int) -> string, i: int, lines: string, skipCount: nat,
                  successCount: nat)
    returns (lines': string, skipCount': nat, successCount': nat)
    requires 0 <= i < |names| && forall k :: k in names ==> k in m
    requires !AnyPanics(names[..i], m, width) && !LinePanics(names[i], m[names[i]], width)
    requires lines == Lines(names[..i], m, width, progressLine)
    requires skipCount == CountStatus(names[..i], m, PreviouslyUploaded)
    requires successCount == CountStatus(names[..i], m, UploadCompleted)
    ensures !AnyPanics(names[..i + 1], m, width)
    ensures lines' == Lines(names[..i + 1], m, width, progressLine)
    ensures skipCount' == CountStatus(names[..i + 1], m, PreviouslyUploaded)
    ensures successCount' == CountStatus(names[..i + 1], m, UploadCompleted)
  {
    PrefixStep(names, m, i, width, progressLine);
    var st := m[names[i]];
    lines' := lines + FileLine(names[i], st, width, progressLine);
    skipCount', successCount' := skipCount, successCount;
    if st.status == PreviouslyUploaded {
      skipCount' := skipCount + 1;
    } else if st.status == UploadCompleted {
      successCount' := successCount + 1;
    }
  }

  /**
   * The loop of View over the listed files: their lines, the number skipped and the number
   * completed; None at the first file whose progress bar makes strings.Repeat panic.
   */
  method RenderFiles(names: seq<string>, m: map<string, FileStatus>, width: int,
                     progressLine: (string, FileStatus, int) -> string) returns (r: Option<(string, nat, nat)>)
    requires forall k :: k in names ==> k in m
    ensures r.None? <==> exists i :: PanicsAt(names, m, width, i)
    ensures r.Some? ==> r.value == (Lines(names, m, width, progressLine), CountStatus(names, m, PreviouslyUploaded),
                                    CountStatus(names, m, UploadCompleted))
  {
    var lines := "";
    var skipCount := 0;
    var successCount := 0;
    var i := 0;
    while i < |names|
      invariant 0 <= i <= |names|
      invariant forall k :: k in names[..i] ==> k in m
      invariant !AnyPanics(names[..i], m, width)
      invariant lines == Lines(names[..i], m, width, progressLine)
      invariant skipCount == CountStatus(names[..i], m, PreviouslyUploaded)
      invariant successCount == CountStatus(names[..i], m, UploadCompleted)
    {
      var st := m[names[i]];
      if LinePanics(names[i], st, width) {
        assert PanicsAt(names, m, width, i);
        AnyPanicsIff(names, m, width);
        return None;
      }
      lines, skipCount, successCount := DrawLine(names, m, width, progressLine, i, lines, skipCount, successCount);
      i := i + 1;
    }
    assert names[..i] == names;
    AnyPanicsIff(names, m, width);
    r := Some((lines, skipCount, successCount));
  }

  class Monitor {
    var orderedFileList: seq<string>
    var statusMap: map<string, FileStatus>
    var windowWidth: int
    var manualQuit: bool

    /** Every listed file has an entry and every entry is listed. */
    ghost predicate Valid()
      reads this
    {
      (forall k :: k in orderedFileList ==> k in statusMap) &&
      (forall k :: k in statusMap ==> k in orderedFileList)
    }

    constructor ()
      ensures Valid()
      ensures orderedFileList == [] && statusMap == map[] && windowWidth == 0 && !manualQuit
    {
      orderedFileList := [];
      statusMap := map[];
      windowWidth := 0;
      manualQuit := false;
    }

    /** Applies one message. */
    method Update(msg: Msg) returns (cmd: Cmd)
      requires Valid()
      modifies this
      ensures Valid()
      ensures msg.WindowSizeMsg? ==>
        (windowWidth == msg.width && cmd == NoCmd &&
         orderedFileList == old(orderedFileList) && statusMap == old(statusMap) && manualQuit == old(manualQuit))
      ensures msg.AddFileMsg? ==>
        (cmd == NoCmd &&
         orderedFileList == old(orderedFileList) + [msg.name] &&
         statusMap == old(statusMap)[msg.name := FileStatus(0, 0, Unprocessed)] &&
         windowWidth == old(windowWidth) && manualQuit == old(manualQuit))
      ensures msg.UpdateStatusMsg? && msg.name in old(statusMap) ==>
        (cmd == NoCmd &&
         statusMap == old(statusMap)[msg.name := ApplyUpdate(old(statusMap)[msg.name], msg)] &&
         orderedFileList == old(orderedFileList) && windowWidth == old(windowWidth) && manualQuit == old(manualQuit))
      ensures msg.UpdateStatusMsg? && msg.name !in old(statusMap) ==>
        cmd == (if Touches(msg) then Crash else NoCmd) &&
        statusMap == old(statusMap) && orderedFileList == old(orderedFileList) &&
        windowWidth == old(windowWidth) && manualQuit == old(manualQuit)
      ensures msg.QuitMsg? ==> cmd == QuitCmd && unchanged(this)
      ensures msg.KeyMsg? ==>
        cmd == (if msg.key == OtherKey then NoCmd else QuitCmd) &&
        manualQuit == (old(manualQuit) || msg.key != OtherKey) &&
        orderedFileList == old(orderedFileList) && statusMap == old(statusMap) && windowWidth == old(windowWidth)
      ensures msg.OtherMsg? ==> cmd == NoCmd && unchanged(this)
    {
      cmd := NoCmd;
      match msg {
        case WindowSizeMsg(width) =>
          windowWidth := width;
        case AddFileMsg(name) =>
          orderedFileList := orderedFileList + [name];
          statusMap := statusMap[name := FileStatus(0, 0, Unprocessed)];
        case UpdateStatusMsg(name, total, uploaded, status) =>
          if name in statusMap {
            statusMap := statusMap[name := ApplyUpdate(statusMap[name], msg)];
          } else if Touches(msg) {
            cmd := Crash;
          }
        case QuitMsg =>
          cmd := QuitCmd;
        case KeyMsg(key) =>
          if key != OtherKey {
            manualQuit := true;
            cmd := QuitCmd;
          }
        case OtherMsg =>
      }
    }

    /** Renders the status lines and the summary; `wrap` is the word wrapping to the window width.
        None when a progress bar cannot be drawn (strings.Repeat panics). */
    method View(progressLine: (string, FileStatus, int) -> string, wrap: (string, int) -> string) returns (r: Option<string>)
      requires Valid()
      ensures r.None? <==> exists i :: PanicsAt(orderedFileList, statusMap, windowWidth, i)
      ensures r.Some? ==>
        r.value == wrap("Upload Status:\n" + Lines(orderedFileList, statusMap, windowWidth, progressLine) + "\n" +
          Summary(|orderedFileList|, CountStatus(orderedFileList, statusMap, PreviouslyUploaded),
                  CountStatus(orderedFileList, statusMap, UploadCompleted)), windowWidth)
    {
      var tally := RenderFiles(orderedFileList, statusMap, windowWidth, progressLine);
      if tally.None? {
        return None;
      }
      var (lines, skipCount, successCount) := tally.value;
      var text := "Upload Status:\n" + lines + "\n" + Summary(|orderedFileList|, skipCount, successCount);
      r := Some(wrap(text, windowWidth));
    }
  }
}
