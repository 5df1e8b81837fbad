/** Splitting a build log: sections between a start and an end marker go to files of their own,
    the other lines stay. */
module LogSplit {
  import opened Options

  /** A line, with what the two marker patterns find in it. */
  datatype Line = Line(text: string, start: Option<string>, end: bool)

  predicate IsPlain(l: Line) { l.start.None? && !l.end }

  /** The rewritten log, the section files, and where the next line goes. `current` is the file
      handle; it stays bound after the file is closed. */
  datatype State = State(main: seq<Line>, files: map<string, seq<Line>>, copy: bool, current: Option<string>)
  {
    predicate Valid() { !copy ==> current.Some? && current.value in files }
  }

  /** One pass of the loop; None is the error of an end marker before any start marker. */
  function Step(s: State, l: Line): (r: Option<State>)
    requires s.Valid()
    ensures r.Some? ==> r.value.Valid()
  {
    var begun := if l.start.Some? then s.(copy := false, current := l.start, files := s.files[l.start.value := []]) else s;
    var copied := if begun.copy then begun.(main := begun.main + [l]) else begun;
    if l.end then
      if copied.current.None? then None else Some(copied.(copy := true))
    else if !copied.copy && l.start.None? then
      var name := copied.current.value;
      Some(copied.(files := copied.files[name := copied.files[name] + [l]]))
    else Some(copied)
  }

  function Run(s: State, log: seq<Line>): (r: Option<State>)
    requires s.Valid()
    ensures r.Some? ==> r.value.Valid()
    decreases |log|
  {
    if log == [] then Some(s)
    else
      match Step(s, log[0])
      case None => None
      case Some(s') => Run(s', log[1..])
  }

  lemma {:induction false} RunOfTwo(s: State, a: seq<Line>, b: seq<Line>)
    requires s.Valid() && Run(s, a).Some?
    ensures Run(s, a + b) == Run(Run(s, a).value, b)
    decreases |a|
  {
    if a == [] {
      assert a + b == b;
    } else {
      assert (a + b)[0] == a[0] && (a + b)[1..] == a[1..] + b;
      RunOfTwo(Step(s, a[0]).value, a[1..], b);
    }
  }

  /** Once a file handle is bound, no line fails. */
  lemma {:induction false} BoundNeverFails(s: State, log: seq<Line>)
    requires s.Valid() && s.current.Some?
    ensures Run(s, log).Some?
    decreases |log|
  {
    if log != [] {
      BoundNeverFails(Step(s, log[0]).value, log[1..]);
    }
  }

  /** Line i is an end marker, and no line up to it, itself included, is a start marker. */
  predicate EndsFirst(log: seq<Line>, i: nat)
    requires i < |log|
  {
    log[i].end && forall j :: 0 <= j <= i ==> log[j].start.None?
  }

  /** A log is refused if and only if it has an end marker before any start marker. */
  lemma {:induction false} FailsIff(s: State, log: seq<Line>)
    requires s.Valid() && s.current.None?
    ensures Run(s, log).None? <==> exists i :: 0 <= i < |log| && EndsFirst(log, i)
    decreases |log|
  {
    if log != [] {
      if log[0].start.Some? {
        BoundNeverFails(Step(s, log[0]).value, log[1..]);
      } else if log[0].end {
        assert EndsFirst(log, 0);
      } else {
        var rest := log[1..];
        FailsIff(Step(s, log[0]).value, rest);
        forall i | 0 <= i < |rest|
          ensures EndsFirst(rest, i) <==> EndsFirst(log, i + 1)
        {
          assert forall j :: 0 <= j <= i ==> rest[j] == log[j + 1];
        }
        assert !EndsFirst(log, 0);
        if i :| 0 <= i < |log| && EndsFirst(log, i) {
          assert EndsFirst(rest, i - 1);
        }
      }
    }
  }

  // Rendering.

  /** A plain line, or a section: its marker lines, its name and its body. */
  datatype Item = Plain(line: Line) | Section(name: string, head: Line, body: seq<Line>, tail: Line)
  {
    /** Markers only where they belong. */
    predicate Valid() {
      match this
      case Plain(l) => IsPlain(l)
      case Section(name, head, body, tail) =>
        && head.start == Some(name) && !head.end && tail.start.None? && tail.end
        && forall i :: 0 <= i < |body| ==> IsPlain(body[i])
    }

    function Render(): seq<Line> {
      match this
      case Plain(l) => [l]
      case Section(name, head, body, tail) => [head] + body + [tail]
    }
  }

  predicate AllValid(items: seq<Item>) { forall i :: 0 <= i < |items| ==> items[i].Valid() }

  function Render(items: seq<Item>): seq<Line> {
    if items == [] then [] else Render(items[..|items| - 1]) + items[|items| - 1].Render()
  }

  function PlainLines(items: seq<Item>): seq<Line> {
    if items == [] then []
    else
      var n := |items| - 1;
      PlainLines(items[..n]) + if items[n].Plain? then [items[n].line] else []
  }

  /** The files: a later section of the same name replaces an earlier one. */
  function Files(files: map<string, seq<Line>>, items: seq<Item>): map<string, seq<Line>> {
    if items == [] then files
    else
      var n := |items| - 1;
      var before := Files(files, items[..n]);
      if items[n].Section? then before[items[n].name := items[n].body] else before
  }

  /** Inside a section every line goes to its file. */
  lemma {:induction false} RunOfBody(s: State, body: seq<Line>)
    requires s.Valid() && !s.copy && forall i :: 0 <= i < |body| ==> IsPlain(body[i])
    ensures Run(s, body) == Some(s.(files := s.files[s.current.value := s.files[s.current.value] + body]))
    decreases |body|
  {
    var name := s.current.value;
    if body == [] {
      assert s.files[name] + body == s.files[name];
      assert s.files[name := s.files[name]] == s.files;
    } else {
      var s' := Step(s, body[0]).value;
      RunOfBody(s', body[1..]);
      assert s.files[name] + [body[0]] + body[1..] == s.files[name] + body;
      assert s'.files[name := s'.files[name] + body[1..]] == s.files[name := s.files[name] + body];
    }
  }

  lemma RunOfOne(s: State, l: Line)
    requires s.Valid()
    ensures Run(s, [l]) == Step(s, l)
  {
    assert [l][1..] == [];
  }

  lemma RunOfSection(s: State, item: Item)
    requires s.Valid() && s.copy && item.Section? && item.Valid()
    ensures Run(s, item.Render()) == Some(s.(files := s.files[item.name := item.body], current := Some(item.name)))
  {
    RunOfOne(s, item.head);
    var s1 := Step(s, item.head).value;
    RunOfTwo(s, [item.head], item.body);
    RunOfBody(s1, item.body);
    var s2 := Run(s1, item.body).value;
    assert [] + item.body == item.body;
    assert s2.files == s.files[item.name := item.body];
    RunOfTwo(s, [item.head] + item.body, [item.tail]);
    RunOfOne(s2, item.tail);
  }

  lemma RunOfItem(s: State, item: Item)
    requires s.Valid() && s.copy && item.Valid()
    ensures var r := Run(s, item.Render());
            && r.Some? && r.value.copy
            && r.value.main == s.main + (if item.Plain? then [item.line] else [])
            && r.value.files == if item.Section? then s.files[item.name := item.body] else s.files
  {
    if item.Plain? {
      RunOfOne(s, item.line);
    } else {
      RunOfSection(s, item);
    }
  }

  lemma RunOfOneMore(s: State, log: seq<Line>, item: Item)
    requires s.Valid() && item.Valid() && Run(s, log).Some? && Run(s, log).value.copy
    ensures var s', r := Run(s, log).value, Run(s, log + item.Render());
            && r.Some? && r.value.copy
            && r.value.main == s'.main + (if item.Plain? then [item.line] else [])
            && r.value.files == if item.Section? then s'.files[item.name := item.body] else s'.files
  {
    RunOfTwo(s, log, item.Render());
    RunOfItem(Run(s, log).value, item);
  }

  /** Splitting undoes rendering: the rewritten log is the plain lines in order, and the files are
      those of the sections, whatever files there were before. */
  lemma {:induction false} SplitUndoesRender(s: State, items: seq<Item>)
    requires s.Valid() && s.copy && AllValid(items)
    ensures var r := Run(s, Render(items));
            && r.Some? && r.value.copy
            && r.value.main == s.main + PlainLines(items) && r.value.files == Files(s.files, items)
  {
    if items != [] {
      var n := |items| - 1;
      SplitUndoesRender(s, items[..n]);
      RunOfOneMore(s, Render(items[..n]), items[n]);
    }
  }

  /** Two sections of one name have one body. */
  predicate NamesAgree(items: seq<Item>) {
    forall i, j :: 0 <= i < j < |items| && items[i].Section? && items[j].Section? && items[i].name == items[j].name ==>
      items[i].body == items[j].body
  }

  ghost predicate EachHasItsFile(items: seq<Item>, files: map<string, seq<Line>>) {
    forall i :: 0 <= i < |items| && items[i].Section? ==> items[i].name in files && files[items[i].name] == items[i].body
  }

  /** Every section's file is its body exactly when no name is used for two bodies. */
  lemma {:induction false} EachHasItsFileIff(files: map<string, seq<Line>>, items: seq<Item>)
    ensures EachHasItsFile(items, Files(files, items)) <==> NamesAgree(items)
  {
    if items != [] {
      var n := |items| - 1;
      EachHasItsFileIff(files, items[..n]);
      var before, after := Files(files, items[..n]), Files(files, items);
      if NamesAgree(items) {
        assert NamesAgree(items[..n]);
        forall i | 0 <= i < n && items[i].Section?
          ensures items[i].name in after && after[items[i].name] == items[i].body
        {
          assert items[..n][i] == items[i];
        }
      }
      if EachHasItsFile(items, after) {
        forall i, j | 0 <= i < j < |items| && items[i].Section? && items[j].Section? && items[i].name == items[j].name
          ensures items[i].body == items[j].body
        {
          assert after[items[i].name] == items[i].body && after[items[j].name] == items[j].body;
        }
      }
    }
  }

  /** SplitReport. The log is rewritten in place; files are those of the destination folder. */
  class SplitReport {
    var log: seq<Line>
    var files: map<string, seq<Line>>

    constructor (log: seq<Line>)
      ensures this.log == log && files == map[]
    {
      this.log := log;
      files := map[];
    }

    /** split. On the error the log is not yet replaced. */
    method Split() returns (ok: bool)
      modifies this
      ensures var r := Run(State([], old(files), true, None), old(log));
              && (ok <==> r.Some?)
              && (ok ==> log == r.value.main && files == r.value.files)
              && (!ok ==> log == old(log) && files == old(files))
      ensures ok <==> !exists i :: 0 <= i < |old(log)| && EndsFirst(old(log), i)
    {
      var newImageLog: seq<Line>, copyFlag := [], true;
      var detailedLogFile: Option<string> := None;
      ghost var s0 := State([], files, true, None);
      FailsIff(s0, log);
      for i := 0 to |log|
        invariant log == old(log) && State(newImageLog, files, copyFlag, detailedLogFile).Valid()
        invariant detailedLogFile.None? ==> files == old(files)
        invariant Run(s0, log) == Run(State(newImageLog, files, copyFlag, detailedLogFile), log[i..])
      {
        var line := log[i];
        assert log[i..][0] == line && log[i..][1..] == log[i + 1..];
        var header := false;
        if line.start.Some? {
          copyFlag, header := false, true;
          detailedLogFile := line.start;
          files := files[line.start.value := []];
        }
        if copyFlag {
          newImageLog := newImageLog + [line];
        }
        if line.end {
          if detailedLogFile.None? {
            return false;
          }
          copyFlag := true;
        } else if !copyFlag && !header {
          var name := detailedLogFile.value;
          files := files[name := files[name] + [line]];
        }
      }
      assert log[|log|..] == [];
      log := newImageLog;
      ok := true;
    }
  }
}
