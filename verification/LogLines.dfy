/** Where every line of a build log ends up, for any log the splitter accepts, markers in any order. */
module LogLines {
  import opened Options
  import opened LogSplit

  /** The last start marker among the first n lines, of any name or of one. */
  function LastStart(log: seq<Line>, n: nat): (r: Option<nat>)
    requires n <= |log|
    ensures r.Some? ==> r.value < n && log[r.value].start.Some?
  {
    if n == 0 then None else if log[n - 1].start.Some? then Some(n - 1) else LastStart(log, n - 1)
  }

  function LastNamed(log: seq<Line>, n: nat, name: string): (r: Option<nat>)
    requires n <= |log|
    ensures r.Some? ==> r.value < n && log[r.value].start == Some(name)
  {
    if n == 0 then None else if log[n - 1].start == Some(name) then Some(n - 1) else LastNamed(log, n - 1, name)
  }

  /** Before line n a section is open: no end marker came since the last start marker, on its line or
      later. */
  ghost predicate Open(log: seq<Line>, n: nat)
    requires n <= |log|
  {
    LastStart(log, n).Some? && forall i :: LastStart(log, n).value <= i < n ==> !log[i].end
  }

  /** The lines outside sections, end markers without a section among them. */
  ghost function Outside(log: seq<Line>, n: nat): seq<Line>
    requires n <= |log|
  {
    if n == 0 then []
    else Outside(log, n - 1) + if log[n - 1].start.None? && !Open(log, n - 1) then [log[n - 1]] else []
  }

  /** The lines of the section that starts at line j, without its markers. */
  ghost function Section(log: seq<Line>, n: nat, j: nat): seq<Line>
    requires n <= |log|
  {
    if n == 0 then []
    else
      Section(log, n - 1, j) +
      if Open(log, n - 1) && LastStart(log, n - 1) == Some(j) && IsPlain(log[n - 1]) then [log[n - 1]] else []
  }

  lemma {:induction false} LaterSection(log: seq<Line>, n: nat, j: nat)
    requires n <= |log| && n <= j + 1
    ensures Section(log, n, j) == []
  {
    if n > 0 {
      LaterSection(log, n - 1, j);
    }
  }

  lemma {:induction false} LastIsLastNamed(log: seq<Line>, n: nat)
    requires n <= |log| && LastStart(log, n).Some?
    ensures LastNamed(log, n, log[LastStart(log, n).value].start.value) == LastStart(log, n)
  {
    if log[n - 1].start.None? {
      LastIsLastNamed(log, n - 1);
    }
  }

  /** The file of a name after n lines. */
  ghost predicate HasFile(log: seq<Line>, n: nat, files: map<string, seq<Line>>, before: map<string, seq<Line>>, name: string)
    requires n <= |log|
  {
    match LastNamed(log, n, name)
    case Some(j) => name in files && files[name] == Section(log, n, j)
    case None => (name in files <==> name in before) && (name in files ==> files[name] == before[name])
  }

  ghost predicate IsSplit(log: seq<Line>, n: nat, s: State, before: map<string, seq<Line>>)
    requires n <= |log|
  {
    && s.main == Outside(log, n) && s.copy == !Open(log, n)
    && s.current == (if LastStart(log, n).Some? then log[LastStart(log, n).value].start else None)
    && forall name :: HasFile(log, n, s.files, before, name)
  }

  lemma {:induction false} PrefixRuns(s: State, a: seq<Line>, b: seq<Line>)
    requires s.Valid() && Run(s, a + b).Some?
    ensures Run(s, a).Some?
    decreases |a|
  {
    if a != [] {
      assert (a + b)[0] == a[0] && (a + b)[1..] == a[1..] + b;
      PrefixRuns(Step(s, a[0]).value, a[1..], b);
    }
  }

  lemma StartLine(log: seq<Line>, n: nat, s: State, before: map<string, seq<Line>>, name: string)
    requires n < |log| && s.Valid() && IsSplit(log, n, s, before) && log[n].start.Some? && Step(s, log[n]).Some?
    ensures HasFile(log, n + 1, Step(s, log[n]).value.files, before, name)
  {
    assert HasFile(log, n, s.files, before, name);
    LaterSection(log, n + 1, n);
  }

  lemma OtherLine(log: seq<Line>, n: nat, s: State, before: map<string, seq<Line>>, name: string)
    requires n < |log| && s.Valid() && IsSplit(log, n, s, before) && log[n].start.None? && Step(s, log[n]).Some?
    ensures HasFile(log, n + 1, Step(s, log[n]).value.files, before, name)
  {
    assert HasFile(log, n, s.files, before, name);
    if Open(log, n) {
      LastIsLastNamed(log, n);
    }
  }

  lemma OpenNext(log: seq<Line>, n: nat)
    requires n < |log|
    ensures Open(log, n + 1) <==> !log[n].end && (log[n].start.Some? || Open(log, n))
  {
  }

  lemma LineSplit(log: seq<Line>, n: nat, s: State, before: map<string, seq<Line>>)
    requires n < |log| && s.Valid() && IsSplit(log, n, s, before) && Step(s, log[n]).Some?
    ensures IsSplit(log, n + 1, Step(s, log[n]).value, before)
  {
    OpenNext(log, n);
    var files, next := Step(s, log[n]).value.files, n + 1;
    forall name: string
      ensures HasFile(log, next, files, before, name)
    {
      if log[n].start.Some? {
        StartLine(log, n, s, before, name);
      } else {
        OtherLine(log, n, s, before, name);
      }
    }
    assert Outside(log, n) + [] == Outside(log, n);
  }

  lemma {:induction false} PrefixSplit(log: seq<Line>, n: nat, before: map<string, seq<Line>>)
    requires n <= |log| && Run(LogSplit.State([], before, true, None), log).Some?
    ensures var r := Run(LogSplit.State([], before, true, None), log[..n]); r.Some? && IsSplit(log, n, r.value, before)
    decreases n
  {
    var s0 := LogSplit.State([], before, true, None);
    assert log == log[..n] + log[n..];
    PrefixRuns(s0, log[..n], log[n..]);
    if n > 0 {
      PrefixSplit(log, n - 1, before);
      assert log[..n] == log[..n - 1] + [log[n - 1]];
      RunOfTwo(s0, log[..n - 1], [log[n - 1]]);
      RunOfOne(Run(s0, log[..n - 1]).value, log[n - 1]);
      LineSplit(log, n - 1, Run(s0, log[..n - 1]).value, before);
    }
  }

  /** For every log that is not refused: the rewritten log is the lines outside sections, in order; the file
      of a name is the section of the last start marker with that name, up to the next marker; files of
      other names are as they were. */
  lemma EveryLineHasItsPlace(log: seq<Line>, before: map<string, seq<Line>>)
    requires Run(LogSplit.State([], before, true, None), log).Some?
    ensures var r := Run(LogSplit.State([], before, true, None), log).value;
            r.main == Outside(log, |log|) && forall name :: HasFile(log, |log|, r.files, before, name)
  {
    PrefixSplit(log, |log|, before);
    assert log[..|log|] == log;
  }
}
