/**
 * The older terminal upload monitor of the prompts package: files are announced
 * either as previously uploaded or with their size and whether they go multipart;
 * progress messages carry the absolute byte count, and a multipart file shows 99%
 * until its completion step is reported.
 */
module PromptsUploadMonitor {
  import opened Wrappers
  import opened Strings
  import M = UploadStatusMonitor

  datatype Completion = NormalCompletion | MultipartInProgress | MultipartCompleted | PreviouslyUploaded

  datatype Entry = Entry(total: int, uploaded: int, completion: Completion)

  datatype Msg =
    | WindowSizeMsg(width: int)
    | AddUploadedFileMsg(name: string)
    | AddFileMsg(name: string, total: int, isMultiPart: bool)
    | UpdateFileMsg(name: string, uploaded: int)
    | CompleteMultipartMsg(name: string)
    | QuitMsg
    | KeyMsg(key: M.Key)
    | OtherMsg

  /** calculateUploadProgress. */
  function Progress(e: Entry): (r: M.Percent)
    ensures e.uploaded == e.total && e.completion == MultipartInProgress ==> r == M.Value(99.0)
    ensures e.uploaded == e.total && e.completion == MultipartCompleted ==> r == M.Value(100.0)
  {
    if e.uploaded == e.total && e.completion == MultipartInProgress then M.Value(99.0)
    else if e.uploaded == e.total && e.completion == MultipartCompleted then M.Value(100.0)
    else M.Ratio(e.uploaded, e.total)
  }

  lemma RatioIsHundred(u: int, t: int)
    requires t != 0
    ensures u as real * 100.0 / t as real == 100.0 <==> u == t
  {
    var x := u as real * 100.0 / t as real;
    assert x * t as real == u as real * 100.0;
    if x == 100.0 {
      assert 100.0 * t as real == 100.0 * u as real;
    }
  }

  /**
   * A file shows 100% exactly when all its bytes are reported and it is not waiting for its
   * multipart completion: a multipart upload counts as done only after its completion step,
   * and an ordinary one only when its total is not zero.
   */
  lemma ProgressFullIff(e: Entry)
    ensures Progress(e) == M.Value(100.0) <==>
      e.uploaded == e.total &&
      (e.completion == MultipartCompleted || (e.completion != MultipartInProgress && e.total != 0))
  {
    if e.total != 0 {
      RatioIsHundred(e.uploaded, e.total);
    }
  }

  /** Whether the summary counts `e` as a success: not skipped, and at 100%. */
  predicate Succeeded(e: Entry) {
    e.completion != PreviouslyUploaded && Progress(e) == M.Value(100.0)
  }

  function CountSkipped(names: seq<string>, m: map<string, Entry>): nat
    requires forall k :: k in names ==> k in m
  {
    if names == [] then 0
    else
      var last := names[|names| - 1];
      CountSkipped(names[..|names| - 1], m) + (if m[last].completion == PreviouslyUploaded then 1 else 0)
  }

  function CountSucceeded(names: seq<string>, m: map<string, Entry>): nat
    requires forall k :: k in names ==> k in m
  {
    if names == [] then 0
    else
      var last := names[|names| - 1];
      CountSucceeded(names[..|names| - 1], m) + (if Succeeded(m[last]) then 1 else 0)
  }

  const SkippedText: string := "Previously uploaded, skipping"

  /** The width of the padding on a skipped file's line; a negative width makes strings.Repeat panic. */
  function SkipPadding(name: string, width: int): int {
    width - |name| - |SkippedText| - 1
  }

  /** The width of the progress bar on a file's line: the window less the name, the brackets and the percentage. */
  function BarWidth(name: string, width: int): int {
    width - |name| - 12
  }

  /** One file's line; the progress-bar line of any other file is produced by `progressLine`. */
  function FileLine(name: string, e: Entry, width: int, progressLine: (string, Entry, int) -> string): string {
    if e.completion == PreviouslyUploaded then
      var pad := SkipPadding(name, width);
      name + ":" + Spaces(if pad >= 0 then pad else 0) + SkippedText + "\n"
    else progressLine(name, e, width)
  }

  function Lines(names: seq<string>, m: map<string, Entry>, width: int,
                 progressLine: (string, Entry, int) -> string): string
    requires forall k :: k in names ==> k in m
  {
    if names == [] then ""
    else
      var last := names[|names| - 1];
      Lines(names[..|names| - 1], m, width, progressLine) + FileLine(last, m[last], width, progressLine)
  }

  /** Drawing a file's line panics: a skipped file with a negative padding, or any other file
      whose progress bar panics. */
  predicate LinePanics(name: string, e: Entry, width: int) {
    if e.completion == PreviouslyUploaded then SkipPadding(name, width) < 0
    else M.BarPanics(Progress(e), BarWidth(name, width))
  }

  /** Drawing the `i`-th listed file panics. */
  predicate PanicsAt(names: seq<string>, m: map<string, Entry>, width: int, i: int)
    requires forall k :: k in names ==> k in m
  {
    0 <= i < |names| && LinePanics(names[i], m[names[i]], width)
  }

  /** Some file among `names` cannot be drawn. */
  predicate AnyPanics(names: seq<string>, m: map<string, Entry>, width: int)
    requires forall k :: k in names ==> k in m
  {
    names != [] &&
    (AnyPanics(names[..|names| - 1], m, width) || LinePanics(names[|names| - 1], m[names[|names| - 1]], width))
  }

  lemma {:induction false} AnyPanicsIff(names: seq<string>, m: map<string, Entry>, width: int)
    requires forall k :: k in names ==> k in m
    ensures AnyPanics(names, m, width) <==> exists i :: PanicsAt(names, m, width, i)
  {
    if names != [] {
      var init := names[..|names| - 1];
      AnyPanicsIff(init, m, width);
      if exists i :: PanicsAt(init, m, width, i) {
        var i :| PanicsAt(init, m, width, i);
        assert init[i] == names[i];
        assert PanicsAt(names, m, width, i);
      }
      if LinePanics(names[|names| - 1], m[names[|names| - 1]], width) {
        assert PanicsAt(names, m, width, |names| - 1);
      }
      if exists i :: PanicsAt(names, m, width, i) {
        var i :| PanicsAt(names, m, width, i);
        if i < |init| {
          assert init[i] == names[i];
          assert PanicsAt(init, m, width, i);
        }
      }
    }
  }

  /** A file announced with size 0 and not as multipart has progress 0 * 100 / 0, NaN, and drawing
      it panics whatever the window width. */
  lemma EmptyFilePanics(names: seq<string>, m: map<string, Entry>, width: int, i: int)
    requires forall k :: k in names ==> k in m
    requires 0 <= i < |names| && m[names[i]] == Entry(0, 0, NormalCompletion)
    ensures Progress(m[names[i]]) == M.NaN
    ensures PanicsAt(names, m, width, i)
  {
  }

  lemma {:induction false} CountsBounded(names: seq<string>, m: map<string, Entry>)
    requires forall k :: k in names ==> k in m
    ensures CountSkipped(names, m) + CountSucceeded(names, m) <= |names|
  {
    if names != [] {
      CountsBounded(names[..|names| - 1], m);
    }
  }

  /** "Remaining" is shown exactly when some listed file is neither skipped nor at 100%. */
  lemma {:induction false} RemainingIffPending(names: seq<string>, m: map<string, Entry>)
    requires forall k :: k in names ==> k in m
    ensures CountSkipped(names, m) + CountSucceeded(names, m) < |names| <==>
      exists i :: 0 <= i < |names| && m[names[i]].completion != PreviouslyUploaded && !Succeeded(m[names[i]])
  {
    if names != [] {
      var init := names[..|names| - 1];
      RemainingIffPending(init, m);
      CountsBounded(init, m);
      if exists i :: 0 <= i < |init| && m[init[i]].completion != PreviouslyUploaded && !Succeeded(m[init[i]]) {
        var i :| 0 <= i < |init| && m[init[i]].completion != PreviouslyUploaded && !Succeeded(m[init[i]]);
        assert names[i] == init[i];
      }
      if exists i :: 0 <= i < |names| && m[names[i]].completion != PreviouslyUploaded && !Succeeded(m[names[i]]) {
        var i :| 0 <= i < |names| && m[names[i]].completion != PreviouslyUploaded && !Succeeded(m[names[i]]);
        if i < |init| {
          assert init[i] == names[i];
        }
      }
    }
  }

  lemma PrefixStep(names: seq<string>, m: map<string, Entry>, i: int, width: int,
                   progressLine: (string, Entry, int) -> string)
    requires 0 <= i < |names|
    requires forall k :: k in names ==> k in m
    ensures forall k :: k in names[..i + 1] ==> k in m
    ensures Lines(names[..i + 1], m, width, progressLine) ==
      Lines(names[..i], m, width, progressLine) + FileLine(names[i], m[names[i]], width, progressLine)
    ensures CountSkipped(names[..i + 1], m) ==
      CountSkipped(names[..i], m) + (if m[names[i]].completion == PreviouslyUploaded then 1 else 0)
    ensures CountSucceeded(names[..i + 1], m) == CountSucceeded(names[..i], m) + (if Succeeded(m[names[i]]) then 1 else 0)
    ensures AnyPanics(names[..i + 1], m, width) == (AnyPanics(names[..i], m, width) || LinePanics(names[i], m[names[i]], width))
  {
    assert names[..i + 1][..i] == names[..i];
  }

  /** One turn of View's loop over a file that can be drawn: its line and the counts so far. */
  method DrawLine(names: seq<string>, m: map<string, Entry>, width: int,
                  progressLine: (string, Entry, int) -> string, i: int, lines: string, skipCount: nat,
                  successCount: nat)
    returns (lines': string, skipCount': nat, successCount': nat)
    requires 0 <= i < |names| && forall k :: k in names ==> k in m
    requires !AnyPanics(names[..i], m, width) && !LinePanics(names[i], m[names[i]], width)
    requires lines == Lines(names[..i], m, width, progressLine)
    requires skipCount == CountSkipped(names[..i], m)
    requires successCount == CountSucceeded(names[..i], m)
    ensures !AnyPanics(names[..i + 1], m, width)
    ensures lines' == Lines(names[..i + 1], m, width, progressLine)
    ensures skipCount' == CountSkipped(names[..i + 1], m)
    ensures successCount' == CountSucceeded(names[..i + 1], m)
  {
    PrefixStep(names, m, i, width, progressLine);
    var e := m[names[i]];
    lines' := lines + FileLine(names[i], e, width, progressLine);
    skipCount', successCount' := skipCount, successCount;
    if e.completion == PreviouslyUploaded {
      skipCount' := skipCount + 1;
    } else if Progress(e) == M.Value(100.0) {
      successCount' := successCount + 1;
    }
  }

  /**
   * The loop of View over the listed files: their lines, the number skipped and the number
   * succeeded; None at the first file whose padding or progress bar makes strings.Repeat panic.
   */
  method RenderFiles(names: seq<string>, m: map<string, Entry>, width: int,
                     progressLine: (string, Entry, int) -> string) returns (r: Option<(string, nat, nat)>)
    requires forall k :: k in names ==> k in m
    ensures r.None? <==> exists i :: PanicsAt(names, m, width, i)
    ensures r.Some? ==> r.value == (Lines(names, m, width, progressLine), CountSkipped(names, m), CountSucceeded(names, m))
  {
    var lines := "";
    var skipCount := 0;
    var successCount := 0;
    var i := 0;
    while i < |names|
      invariant 0 <= i <= |names|
      invariant forall k :: k in names[..i] ==> k in m
      invariant !AnyPanics(names[..i], m, width)
      invariant lines == Lines(names[..i], m, width, progressLine)
      invariant skipCount == CountSkipped(names[..i], m)
      invariant successCount == CountSucceeded(names[..i], m)
    {
      if LinePanics(names[i], m[names[i]], width) {
        assert PanicsAt(names, m, width, i);
        AnyPanicsIff(names, m, width);
        return None;
      }
      lines, skipCount, successCount := DrawLine(names, m, width, progressLine, i, lines, skipCount, successCount);
      i := i + 1;
    }
    assert names[..i] == names;
    AnyPanicsIff(names, m, width);
    r := Some((lines, skipCount, successCount));
  }

  class Monitor {
    var orderedFileList: seq<string>
    var statusMap: map<string, Entry>
    var windowWidth: int

    /** Every listed file has an entry and every entry is listed. */
    ghost predicate Valid()
      reads this
    {
      (forall k :: k in orderedFileList ==> k in statusMap) &&
      (forall k :: k in statusMap ==> k in orderedFileList)
    }

    constructor ()
      ensures Valid()
      ensures orderedFileList == [] && statusMap == map[] && windowWidth == 0
    {
      orderedFileList := [];
      statusMap := map[];
      windowWidth := 0;
    }

    /** addUploadedFile: listed again if already present, with a fresh skipped entry. */
    method AddUploadedFile(name: string)
      requires Valid()
      modifies this
      ensures Valid()
      ensures orderedFileList == old(orderedFileList) + [name]
      ensures statusMap == old(statusMap)[name := Entry(0, 0, PreviouslyUploaded)]
      ensures windowWidth == old(windowWidth)
    {
      orderedFileList := orderedFileList + [name];
      statusMap := statusMap[name := Entry(0, 0, PreviouslyUploaded)];
    }

    /** addFile: the size as total, nothing uploaded, and the multipart flag as status. */
    method AddFile(name: string, size: int, isMultiPart: bool)
      requires Valid()
      modifies this
      ensures Valid()
      ensures orderedFileList == old(orderedFileList) + [name]
      ensures statusMap == old(statusMap)[name := Entry(size, 0, if isMultiPart then MultipartInProgress else NormalCompletion)]
      ensures windowWidth == old(windowWidth)
    {
      orderedFileList := orderedFileList + [name];
      statusMap := statusMap[name := Entry(size, 0, NormalCompletion)];
      if isMultiPart {
        statusMap := statusMap[name := statusMap[name].(completion := MultipartInProgress)];
      }
    }

    /** updateFile: the count is replaced by the absolute value given (it may go down). */
    method UpdateFile(name: string, uploaded: int)
      requires Valid() && name in statusMap
      modifies this
      ensures Valid()
      ensures statusMap == old(statusMap)[name := old(statusMap)[name].(uploaded := uploaded)]
      ensures orderedFileList == old(orderedFileList) && windowWidth == old(windowWidth)
    {
      statusMap := statusMap[name := statusMap[name].(uploaded := uploaded)];
    }

    /** completeMultipart: only the status changes. */
    method CompleteMultipart(name: string)
      requires Valid() && name in statusMap
      modifies this
      ensures Valid()
      ensures statusMap == old(statusMap)[name := old(statusMap)[name].(completion := MultipartCompleted)]
      ensures orderedFileList == old(orderedFileList) && windowWidth == old(windowWidth)
    {
      statusMap := statusMap[name := statusMap[name].(completion := MultipartCompleted)];
    }

    /** Update: dispatches one message; an update or completion for a file never added dereferences nil. */
    method Update(msg: Msg) returns (cmd: M.Cmd)
      requires Valid()
      modifies this
      ensures Valid()
      ensures msg.WindowSizeMsg? ==>
        cmd == M.NoCmd && windowWidth == msg.width &&
        orderedFileList == old(orderedFileList) && statusMap == old(statusMap)
      ensures msg.AddUploadedFileMsg? ==>
        cmd == M.NoCmd && orderedFileList == old(orderedFileList) + [msg.name] &&
        statusMap == old(statusMap)[msg.name := Entry(0, 0, PreviouslyUploaded)] && windowWidth == old(windowWidth)
      ensures msg.AddFileMsg? ==>
        cmd == M.NoCmd && orderedFileList == old(orderedFileList) + [msg.name] &&
        statusMap == old(statusMap)[msg.name := Entry(msg.total, 0, if msg.isMultiPart then MultipartInProgress else NormalCompletion)] &&
        windowWidth == old(windowWidth)
      ensures (msg.UpdateFileMsg? || msg.CompleteMultipartMsg?) && msg.name !in old(statusMap) ==>
        cmd == M.Crash && unchanged(this)
      ensures msg.UpdateFileMsg? && msg.name in old(statusMap) ==>
        cmd == M.NoCmd && statusMap == old(statusMap)[msg.name := old(statusMap)[msg.name].(uploaded := msg.uploaded)] &&
        orderedFileList == old(orderedFileList) && windowWidth == old(windowWidth)
      ensures msg.CompleteMultipartMsg? && msg.name in old(statusMap) ==>
        cmd == M.NoCmd && statusMap == old(statusMap)[msg.name := old(statusMap)[msg.name].(completion := MultipartCompleted)] &&
        orderedFileList == old(orderedFileList) && windowWidth == old(windowWidth)
      ensures msg.QuitMsg? ==> cmd == M.QuitCmd && unchanged(this)
      ensures msg.KeyMsg? ==> cmd == (if msg.key == M.OtherKey then M.NoCmd else M.QuitCmd) && unchanged(this)
      ensures msg.OtherMsg? ==> cmd == M.NoCmd && unchanged(this)
    {
      cmd := M.NoCmd;
      match msg {
        case WindowSizeMsg(width) =>
          windowWidth := width;
        case AddUploadedFileMsg(name) =>
          AddUploadedFile(name);
        case AddFileMsg(name, total, isMultiPart) =>
          AddFile(name, total, isMultiPart);
        case UpdateFileMsg(name, uploaded) =>
          if name in statusMap {
            UpdateFile(name, uploaded);
          } else {
            cmd := M.Crash;
          }
        case CompleteMultipartMsg(name) =>
          if name in statusMap {
            CompleteMultipart(name);
          } else {
            cmd := M.Crash;
          }
        case QuitMsg =>
          cmd := M.QuitCmd;
        case KeyMsg(key) =>
          if key != M.OtherKey {
            cmd := M.QuitCmd;
          }
        case OtherMsg =>
      }
    }

    /**
     * View: the per-file lines and the summary, word-wrapped by `wrap`; None when a skipped file's
     * padding is negative or another file's progress bar cannot be drawn (strings.Repeat panics).
     */
    method View(progressLine: (string, Entry, int) -> string, wrap: (string, int) -> string) returns (r: Option<string>)
      requires Valid()
      ensures r.None? <==> exists i :: PanicsAt(orderedFileList, statusMap, windowWidth, i)
      ensures r.Some? ==>
        r.value == wrap("Upload Status:\n" + Lines(orderedFileList, statusMap, windowWidth, progressLine) + "\n" +
                        M.Summary(|orderedFileList|, CountSkipped(orderedFileList, statusMap),
                                  CountSucceeded(orderedFileList, statusMap)), windowWidth)
    {
      var tally := RenderFiles(orderedFileList, statusMap, windowWidth, progressLine);
      if tally.None? {
        return None;
      }
      var (lines, skipCount, successCount) := tally.value;
      var text := "Upload Status:\n" + lines + "\n" + M.Summary(|orderedFileList|, skipCount, successCount);
      r := Some(wrap(text, windowWidth));
    }
  }
}
