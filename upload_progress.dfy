/**
 * The two progress readers of the upload manager: readers wrapped around the
 * file (single PUT) or around one part's section of it (multipart) that count
 * the bytes read and, when a monitor is attached, report the bytes read since
 * the last report once that amount exceeds a twentieth of the total or the
 * total is reached.
 */
module UploadProgress {
  import opened UploadStatusMonitor

  /**
   * Go's int64 division, which truncates toward zero (Dafny's `/` is Euclidean): the
   * remainder `a - r * b` takes the sign of `a` and is smaller than `b` in magnitude.
   */
  function GoDiv(a: int, b: int): (r: int)
    requires b > 0
    ensures a >= 0 ==> 0 <= a - r * b < b
    ensures a < 0 ==> -b < a - r * b <= 0
  {
    if a >= 0 then a / b else -((-a) / b)
  }

  /** The bytes a list of update messages reports in total. */
  function Reported(msgs: seq<Msg>): int {
    if msgs == [] then 0
    else
      var last := msgs[|msgs| - 1];
      Reported(msgs[..|msgs| - 1]) + (if last.UpdateStatusMsg? then last.uploaded else 0)
  }

  /** A report of the reader for `name`: an update with no total, a byte delta and the reader's status. */
  predicate IsReport(msg: Msg, name: string, status: UploadStatus) {
    msg.UpdateStatusMsg? && msg.name == name && msg.total == 0 && msg.uploaded >= 0 && msg.status == status
  }

  /** The monitor's entry after it has applied `msgs`, in order. */
  function ApplyAll(st: FileStatus, msgs: seq<Msg>): FileStatus
    requires forall i :: 0 <= i < |msgs| ==> msgs[i].UpdateStatusMsg?
  {
    if msgs == [] then st
    else ApplyUpdate(ApplyAll(st, msgs[..|msgs| - 1]), msgs[|msgs| - 1])
  }

  /**
   * The monitor adds up exactly what a reader reported: applying a reader's reports to the
   * file's entry raises its byte count by their sum, keeps its total, and (after at least one
   * report with a status) leaves the reader's status.
   */
  lemma {:induction false} MonitorSeesReported(st: FileStatus, msgs: seq<Msg>, name: string, status: UploadStatus)
    requires forall i :: 0 <= i < |msgs| ==> msgs[i].UpdateStatusMsg? && IsReport(msgs[i], name, status)
    ensures ApplyAll(st, msgs).uploaded == st.uploaded + Reported(msgs)
    ensures ApplyAll(st, msgs).total == st.total
    ensures ApplyAll(st, msgs).status == (if msgs != [] && status != Unprocessed then status else st.status)
  {
    if msgs != [] {
      MonitorSeesReported(st, msgs[..|msgs| - 1], name, status);
      assert IsReport(msgs[|msgs| - 1], name, status);
    }
  }

  /** One more report keeps every message a report and adds its delta to the reported sum. */
  lemma ReportAppended(msgs: seq<Msg>, msg: Msg, name: string, status: UploadStatus)
    requires forall i :: 0 <= i < |msgs| ==> IsReport(msgs[i], name, status)
    requires IsReport(msg, name, status)
    ensures forall i :: 0 <= i < |msgs + [msg]| ==> IsReport((msgs + [msg])[i], name, status)
    ensures Reported(msgs + [msg]) == Reported(msgs) + msg.uploaded
  {
    assert (msgs + [msg])[..|msgs|] == msgs;
  }

  class ProgressReader {
    const absPath: string
    const total: int
    const hasMonitor: bool
    /** The status carried by the reports: none (Unprocessed) for the whole-file reader,
        UploadInProgress for the section reader. */
    const status: UploadStatus
    /** prevUploadedCheckpoint: the byte count at the last report. */
    var prev: int
    var uploaded: int
    /** The reports sent to the monitor so far. */
    var sent: seq<Msg>

    /**
     * Every report carries a non-negative delta and their sum is the checkpoint; the checkpoint
     * never passes the bytes read; without a monitor nothing is reported; and what is not yet
     * reported is at most a twentieth of the total, and nothing once the total is reached.
     */
    ghost predicate Valid()
      reads this
    {
      0 <= prev <= uploaded &&
      Reported(sent) == prev &&
      (forall i :: 0 <= i < |sent| ==> IsReport(sent[i], absPath, status)) &&
      (!hasMonitor ==> sent == [] && prev == 0) &&
      (hasMonitor ==> uploaded == prev || (uploaded - prev <= GoDiv(total, 20) && uploaded != total))
    }

    constructor (absPath: string, total: int, hasMonitor: bool, status: UploadStatus)
      ensures Valid()
      ensures this.absPath == absPath && this.total == total && this.hasMonitor == hasMonitor && this.status == status
      ensures prev == 0 && uploaded == 0 && sent == []
    {
      this.absPath := absPath;
      this.total := total;
      this.hasMonitor := hasMonitor;
      this.status := status;
      prev := 0;
      uploaded := 0;
      sent := [];
    }

    /** A report is due at `now` bytes, last reported at `last`, when a monitor is attached and
        more than a twentieth of the total is unreported, or the total is reached. */
    predicate Due(last: int, now: int) {
      hasMonitor && (now - last > GoDiv(total, 20) || now == total)
    }

    /** Read: `n` bytes were read (the buffer's length, or what the section reader returned). */
    method Read(n: nat) returns (r: nat)
      requires Valid()
      modifies this
      ensures Valid()
      ensures r == n
      ensures uploaded == old(uploaded) + n
      ensures Due(old(prev), uploaded) ==>
        sent == old(sent) + [UpdateStatusMsg(absPath, 0, uploaded - old(prev), status)] && prev == uploaded
      ensures !Due(old(prev), uploaded) ==> sent == old(sent) && prev == old(prev)
    {
      uploaded := uploaded + n;
      if hasMonitor {
        if uploaded - prev > GoDiv(total, 20) || uploaded == total {
          var msg := UpdateStatusMsg(absPath, 0, uploaded - prev, status);
          ReportAppended(sent, msg, absPath, status);
          sent := sent + [msg];
          prev := uploaded;
        }
      }
      r := n;
    }
  }

  /** Once the reader has read the whole total, everything read has been reported. */
  lemma TotalFullyReported(reader: ProgressReader)
    requires reader.Valid() && reader.hasMonitor && reader.uploaded == reader.total
    ensures Reported(reader.sent) == reader.total
  {
  }
}
