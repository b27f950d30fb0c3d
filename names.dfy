/**
 * Resource names: "projects/<project>/records/<record>",
 * "projects/<project>/records/<record>/files/<file>",
 * "projects/<project>/actionRuns/<id>" and "users/<user>". Each is parsed with an
 * anchored RE2 pattern whose groups are greedy `.*`: a group never holds a newline,
 * and an earlier group is as long as the rest of the pattern allows.
 */
module ResourceNames {
  import opened Wrappers
  import opened Strings

  // ---------------------------------------------------------------------------
  // The two pattern shapes, `^P(.*)S(.*)$` and `^P(.*)S1(.*)S2(.*)$`

  /** `^P(.*)S(.*)$`: the first group runs up to the last occurrence of S that starts after P. */
  function MatchTwo(s: string, p: string, sep: string): (r: Option<(string, string)>)
    requires |sep| > 0
  {
    if StartsWith(s, p) && '\n' !in s then
      var l := LastIndex(s, sep);
      if l >= |p| then Some((s[|p|..l], s[l + |sep|..])) else None
    else None
  }

  /** Every match is a decomposition of the input, with no later occurrence of the separator. */
  lemma MatchTwoSound(s: string, p: string, sep: string)
    requires |sep| > 0 && MatchTwo(s, p, sep).Some?
    ensures var (a, b) := MatchTwo(s, p, sep).value;
      s == p + a + sep + b && '\n' !in s &&
      forall i :: |p| + |a| < i ==> !OccursAt(s, sep, i)
  {
    var l := LastIndex(s, sep);
    assert s == s[..|p|] + s[|p|..l] + s[l..l + |sep|] + s[l + |sep|..];
  }

  /**
   * The pattern matches exactly the inputs that decompose as P, a, S, b without a newline,
   * and the first group is the longest such `a` (what a backtracking matcher finds first).
   */
  lemma MatchTwoGreedy(s: string, p: string, sep: string, a: string, b: string)
    requires |sep| > 0 && s == p + a + sep + b && '\n' !in s
    ensures MatchTwo(s, p, sep).Some?
    ensures |MatchTwo(s, p, sep).value.0| >= |a|
  {
    assert StartsWith(s, p);
    assert s[|p| + |a|..|p| + |a| + |sep|] == sep;
    assert OccursAt(s, sep, |p| + |a|);
  }

  /** With the separator only where `a` ends, the match is exactly (a, b). */
  lemma MatchTwoExact(s: string, p: string, sep: string, a: string, b: string)
    requires |sep| > 0 && s == p + a + sep + b && '\n' !in s
    requires forall i :: OccursAt(s, sep, i) ==> i <= |p| + |a|
    ensures MatchTwo(s, p, sep) == Some((a, b))
  {
    MatchTwoGreedy(s, p, sep, a, b);
    MatchTwoSound(s, p, sep);
    var (a', b') := MatchTwo(s, p, sep).value;
    assert OccursAt(s, sep, |p| + |a'|) by {
      assert s[|p| + |a'|..|p| + |a'| + |sep|] == sep;
    }
    assert |a'| == |a|;
    assert a' == s[|p|..|p| + |a|] == a;
    assert b' == s[|p| + |a| + |sep|..] == b;
  }

  /** `^P(.*)S1(.*)S2(.*)$`: the second group runs to the last S2, the first to the last S1 that
      still ends before it. */
  function MatchThree(s: string, p: string, sep1: string, sep2: string): (r: Option<(string, string, string)>)
    requires |sep1| > 0 && |sep2| > 0
  {
    if StartsWith(s, p) && '\n' !in s then
      var j := LastIndex(s, sep2);
      if j < 0 then None
      else
        var i := LastOccurrenceBelow(s, sep1, j - |sep1| + 1);
        if i >= |p| then Some((s[|p|..i], s[i + |sep1|..j], s[j + |sep2|..])) else None
    else None
  }

  /** Adjacent slices join into one. */
  lemma PrefixJoin<T>(s: seq<T>, m: int, n: int)
    requires 0 <= m <= n <= |s|
    ensures s[..m] + s[m..n] == s[..n]
  {
  }

  /** A sequence is the concatenation of its six slices at five cut points. */
  lemma JoinSix<T>(s: seq<T>, p: seq<T>, a: seq<T>, s1: seq<T>, b: seq<T>, s2: seq<T>, c: seq<T>,
                   k1: int, k2: int, k3: int, k4: int, k5: int)
    requires 0 <= k1 <= k2 <= k3 <= k4 <= k5 <= |s|
    requires s[..k1] == p && s[k1..k2] == a && s[k2..k3] == s1
    requires s[k3..k4] == b && s[k4..k5] == s2 && s[k5..] == c
    ensures s == p + a + s1 + b + s2 + c
  {
    PrefixJoin(s, k1, k2);
    PrefixJoin(s, k2, k3);
    PrefixJoin(s, k3, k4);
    PrefixJoin(s, k4, k5);
    PrefixJoin(s, k5, |s|);
    assert s[..|s|] == s;
    assert s[k5..|s|] == s[k5..];
  }

  /** Each piece of a six-piece concatenation is the slice at its offsets. */
  lemma SliceSix<T>(s: seq<T>, p: seq<T>, a: seq<T>, s1: seq<T>, b: seq<T>, s2: seq<T>, c: seq<T>)
    requires s == p + a + s1 + b + s2 + c
    ensures var i := |p| + |a|; var j := i + |s1| + |b|;
      s[|p|..i] == a && s[i..i + |s1|] == s1 && s[i + |s1|..j] == b &&
      s[j..j + |s2|] == s2 && s[j + |s2|..] == c
  {
  }

  /** Every match is a decomposition of the input, which holds no newline. */
  lemma MatchThreeSound(s: string, p: string, sep1: string, sep2: string)
    requires |sep1| > 0 && |sep2| > 0 && MatchThree(s, p, sep1, sep2).Some?
    ensures var r := MatchThree(s, p, sep1, sep2).value;
      s == p + r.0 + sep1 + r.1 + sep2 + r.2 && '\n' !in s
  {
    var j := LastIndex(s, sep2);
    var i := LastOccurrenceBelow(s, sep1, j - |sep1| + 1);
    assert StartsWith(s, p) && '\n' !in s && j >= 0 && i >= |p|;
    var r := MatchThree(s, p, sep1, sep2).value;
    assert r.0 == s[|p|..i] && r.1 == s[i + |sep1|..j] && r.2 == s[j + |sep2|..];
    assert OccursAt(s, sep1, i) && OccursAt(s, sep2, j);
    JoinSix(s, p, r.0, sep1, r.1, sep2, r.2, |p|, i, i + |sep1|, j, j + |sep2|);
  }

  /**
   * The pattern matches every input that decomposes as P, a, S1, b, S2, c without a newline, and
   * of all such decompositions it picks the one with the longest `a`, then the longest `b`.
   */
  lemma MatchThreeGreedy(s: string, p: string, sep1: string, sep2: string, a: string, b: string, c: string)
    requires |sep1| > 0 && |sep2| > 0 && s == p + a + sep1 + b + sep2 + c && '\n' !in s
    ensures MatchThree(s, p, sep1, sep2).Some?
    ensures var (a', b', _) := MatchThree(s, p, sep1, sep2).value;
      |a'| >= |a| && (|a'| == |a| ==> |b'| >= |b|)
  {
    var i0 := |p| + |a|;
    var j0 := i0 + |sep1| + |b|;
    assert StartsWith(s, p);
    assert s[i0..i0 + |sep1|] == sep1;
    assert s[j0..j0 + |sep2|] == sep2;
    assert OccursAt(s, sep1, i0) && OccursAt(s, sep2, j0);
    var j := LastIndex(s, sep2);
    assert j >= j0;
    var i := LastOccurrenceBelow(s, sep1, j - |sep1| + 1);
    assert i >= i0;
  }

  /** With each separator occurring only where the decomposition puts it, the match is exactly it. */
  lemma MatchThreeExact(s: string, p: string, sep1: string, sep2: string, a: string, b: string, c: string)
    requires |sep1| > 0 && |sep2| > 0 && s == p + a + sep1 + b + sep2 + c && '\n' !in s
    requires forall i :: OccursAt(s, sep1, i) ==> i <= |p| + |a|
    requires forall j :: OccursAt(s, sep2, j) ==> j <= |p| + |a| + |sep1| + |b|
    ensures MatchThree(s, p, sep1, sep2) == Some((a, b, c))
  {
    MatchThreeGreedy(s, p, sep1, sep2, a, b, c);
    MatchThreeSound(s, p, sep1, sep2);
    var (a', b', c') := MatchThree(s, p, sep1, sep2).value;
    SliceSix(s, p, a', sep1, b', sep2, c');
    assert OccursAt(s, sep1, |p| + |a'|);
    assert OccursAt(s, sep2, |p| + |a'| + |sep1| + |b'|);
    assert |a'| == |a| && |b'| == |b|;
    SliceSix(s, p, a, sep1, b, sep2, c);
    assert a' == a && b' == b && c' == c;
  }

  // ---------------------------------------------------------------------------
  // Records

  datatype Project = Project(projectId: string)

  datatype Record = Record(projectId: string, recordId: string)

  function RecordString(r: Record): (s: string)
    ensures StartsWith(s, "projects/" + r.projectId + "/records/") && EndsWith(s, r.recordId)
  {
    "projects/" + r.projectId + "/records/" + r.recordId
  }

  /** NewRecord. */
  function NewRecord(s: string): (r: Option<Record>) {
    match MatchTwo(s, "projects/", "/records/")
    case None => None
    case Some((project, record)) => Some(Record(project, record))
  }

  function RecordProject(r: Record): (p: Project)
    ensures StartsWith(RecordString(r), "projects/" + p.projectId + "/records/")
  {
    Project(r.projectId)
  }

  /** Every accepted name formats back to itself, and its record id never contains "/records/". */
  lemma RecordParseFormat(s: string)
    requires NewRecord(s).Some?
    ensures RecordString(NewRecord(s).value) == s
    ensures '\n' !in s
    ensures forall i :: 9 + |NewRecord(s).value.projectId| < i ==> !OccursAt(s, "/records/", i)
  {
    MatchTwoSound(s, "projects/", "/records/");
  }

  /** NewRecord accepts exactly the names that decompose as a record name without a newline. */
  lemma RecordAccepts(s: string, r: Record)
    requires s == RecordString(r) && '\n' !in s
    ensures NewRecord(s).Some? && |NewRecord(s).value.projectId| >= |r.projectId|
  {
    MatchTwoGreedy(s, "projects/", "/records/", r.projectId, r.recordId);
  }

  /** A record formats and parses back to itself when "/records/" occurs in its name only once. */
  lemma RecordFormatParse(r: Record)
    requires '\n' !in RecordString(r)
    requires forall i :: OccursAt(RecordString(r), "/records/", i) ==> i == 9 + |r.projectId|
    ensures NewRecord(RecordString(r)) == Some(r)
  {
    MatchTwoExact(RecordString(r), "projects/", "/records/", r.projectId, r.recordId);
  }

  // ---------------------------------------------------------------------------
  // Files

  datatype File = File(projectId: string, recordId: string, filename: string)

  function FileString(f: File): (s: string)
    ensures StartsWith(s, "projects/" + f.projectId + "/records/" + f.recordId + "/files/") && EndsWith(s, f.filename)
  {
    "projects/" + f.projectId + "/records/" + f.recordId + "/files/" + f.filename
  }

  /** NewFile. */
  function NewFile(s: string): (r: Option<File>) {
    match MatchThree(s, "projects/", "/records/", "/files/")
    case None => None
    case Some((project, record, file)) => Some(File(project, record, file))
  }

  function FileProject(f: File): (p: Project)
    ensures StartsWith(FileString(f), "projects/" + p.projectId + "/records/")
  {
    Project(f.projectId)
  }

  lemma FileParseFormat(s: string)
    requires NewFile(s).Some?
    ensures FileString(NewFile(s).value) == s
    ensures '\n' !in s
  {
    MatchThreeSound(s, "projects/", "/records/", "/files/");
    var (a, b, c) := MatchThree(s, "projects/", "/records/", "/files/").value;
    assert FileString(File(a, b, c)) == "projects/" + a + "/records/" + b + "/files/" + c;
  }

  /** NewFile accepts every file name without a newline, taking the longest project id and then the
      longest record id. */
  lemma FileAccepts(s: string, f: File)
    requires s == FileString(f) && '\n' !in s
    ensures NewFile(s).Some?
    ensures |NewFile(s).value.projectId| >= |f.projectId|
    ensures |NewFile(s).value.projectId| == |f.projectId| ==> |NewFile(s).value.recordId| >= |f.recordId|
  {
    assert s == "projects/" + f.projectId + "/records/" + f.recordId + "/files/" + f.filename;
    MatchThreeGreedy(s, "projects/", "/records/", "/files/", f.projectId, f.recordId, f.filename);
  }

  /** NewFile rejects names lacking the "projects/" prefix or a newline-free form. */
  lemma FileRejects(s: string)
    requires !StartsWith(s, "projects/") || '\n' in s
    ensures NewFile(s).None?
  {
  }

  lemma FileFormatParse(f: File)
    requires '\n' !in FileString(f)
    requires forall i :: OccursAt(FileString(f), "/records/", i) ==> i == 9 + |f.projectId|
    requires forall j :: OccursAt(FileString(f), "/files/", j) ==> j == 9 + |f.projectId| + 9 + |f.recordId|
    ensures NewFile(FileString(f)) == Some(f)
  {
    var s := FileString(f);
    assert s == "projects/" + f.projectId + "/records/" + f.recordId + "/files/" + f.filename;
    MatchThreeExact(s, "projects/", "/records/", "/files/", f.projectId, f.recordId, f.filename);
  }

  /** A file name is also accepted as a record name, the "/files/..." tail ending up in the record id. */
  lemma FileNameIsRecordName(f: File)
    requires '\n' !in FileString(f)
    requires forall i :: OccursAt(FileString(f), "/records/", i) ==> i == 9 + |f.projectId|
    ensures NewRecord(FileString(f)) == Some(Record(f.projectId, f.recordId + "/files/" + f.filename))
  {
    var s := FileString(f);
    assert s == "projects/" + f.projectId + "/records/" + (f.recordId + "/files/" + f.filename);
    MatchTwoExact(s, "projects/", "/records/", f.projectId, f.recordId + "/files/" + f.filename);
  }

  // ---------------------------------------------------------------------------
  // Action runs

  datatype ActionRun = ActionRun(projectId: string, id: string)

  function ActionRunString(a: ActionRun): (s: string)
    ensures StartsWith(s, "projects/" + a.projectId + "/actionRuns/") && EndsWith(s, a.id)
  {
    "projects/" + a.projectId + "/actionRuns/" + a.id
  }

  /** NewActionRun. */
  function NewActionRun(s: string): (r: Option<ActionRun>) {
    match MatchTwo(s, "projects/", "/actionRuns/")
    case None => None
    case Some((project, id)) => Some(ActionRun(project, id))
  }

  function ActionRunProject(a: ActionRun): (p: Project)
    ensures StartsWith(ActionRunString(a), "projects/" + p.projectId + "/actionRuns/")
  {
    Project(a.projectId)
  }

  lemma ActionRunParseFormat(s: string)
    requires NewActionRun(s).Some?
    ensures ActionRunString(NewActionRun(s).value) == s
    ensures '\n' !in s
  {
    MatchTwoSound(s, "projects/", "/actionRuns/");
  }

  /** Without the "projects/" prefix, or without any "/actionRuns/" after it, the name is rejected. */
  lemma ActionRunRejects(s: string)
    requires !StartsWith(s, "projects/") || forall i :: OccursAt(s, "/actionRuns/", i) ==> i < 9
    ensures NewActionRun(s).None?
  {
  }

  lemma ActionRunFormatParse(a: ActionRun)
    requires '\n' !in ActionRunString(a)
    requires forall i :: OccursAt(ActionRunString(a), "/actionRuns/", i) ==> i == 9 + |a.projectId|
    ensures NewActionRun(ActionRunString(a)) == Some(a)
  {
    MatchTwoExact(ActionRunString(a), "projects/", "/actionRuns/", a.projectId, a.id);
  }

  // ---------------------------------------------------------------------------
  // Users

  datatype User = User(userId: string)

  function UserString(u: User): (s: string)
    ensures StartsWith(s, "users/") && s[6..] == u.userId
  {
    "users/" + u.userId
  }

  /** NewUser: "users/" and then anything without a newline. */
  function NewUser(s: string): (r: Option<User>)
    ensures r.Some? <==> StartsWith(s, "users/") && '\n' !in s
    ensures r.Some? ==> UserString(r.value) == s
  {
    if StartsWith(s, "users/") && '\n' !in s then Some(User(s[6..])) else None
  }

  lemma UserFormatParse(u: User)
    requires '\n' !in u.userId
    ensures NewUser(UserString(u)) == Some(u)
  {
    var s := UserString(u);
    assert s[6..] == u.userId;
  }
}
