/** Status reports of parallel test processes: each process takes a lock, puts the fields of a
    record into a shared queue one by one and releases the lock; after the join a consumer
    drains the queue and derives the verdict of the test. */
module StatusQueue {
  import opened Options

  datatype Field = Count(n: int) | Text(s: string)

  /** A status and the texts behind it: device and message, or device, address and message. */
  datatype Record = Record(count: int, texts: seq<string>)

  function TextFields(ts: seq<string>): (fs: seq<Field>)
    ensures |fs| == |ts| && forall i :: 0 <= i < |ts| ==> fs[i] == Text(ts[i])
  {
    seq(|ts|, i requires 0 <= i < |ts| => Text(ts[i]))
  }

  function Fields(r: Record): (fs: seq<Field>)
    ensures |fs| == 1 + |r.texts|
  {
    [Count(r.count)] + TextFields(r.texts)
  }

  function Flatten(rs: seq<Record>): seq<Field> {
    if rs == [] then [] else Flatten(rs[..|rs| - 1]) + Fields(rs[|rs| - 1])
  }

  // The processes.

  /** Who holds the lock and how many fields of its record are in the queue. */
  datatype Holder = Free | Held(process: nat, put: nat)

  /** `todo` are the records each process has still to report; `reports` is the history of
      complete ones. */
  datatype State = State(queue: seq<Field>, lock: Holder, todo: seq<seq<Record>>, reports: seq<(nat, Record)>)

  /** program[i] are the records that process i reports, in order. */
  function Init(program: seq<seq<Record>>): State {
    State([], Free, program, [])
  }

  predicate LockOk(s: State) {
    s.lock.Held? ==>
      s.lock.process < |s.todo| && s.todo[s.lock.process] != [] && s.lock.put <= |Fields(s.todo[s.lock.process][0])|
  }

  /** Process i can take its next step: it has a record to report, and the lock is free or its. */
  predicate Enabled(s: State, i: nat) {
    i < |s.todo| && s.todo[i] != [] && (s.lock.Free? || s.lock.process == i)
  }

  /** Acquire, put one field, or release. */
  function Apply(s: State, i: nat): State
    requires Enabled(s, i)
  {
    if s.lock.Free? then s.(lock := Held(i, 0))
    else
      var fs := Fields(s.todo[i][0]);
      if s.lock.put < |fs| then s.(queue := s.queue + [fs[s.lock.put]], lock := Held(i, s.lock.put + 1))
      else State(s.queue, Free, s.todo[i := s.todo[i][1..]], s.reports + [(i, s.todo[i][0])])
  }

  /** The state after the processes stepped in this order; None if one of them was not able to. */
  function Exec(program: seq<seq<Record>>, run: seq<nat>): Option<State> {
    if run == [] then Some(Init(program))
    else
      var n := |run| - 1;
      match Exec(program, run[..n])
      case None => None
      case Some(s) => if Enabled(s, run[n]) then Some(Apply(s, run[n])) else None
  }

  /** All processes have ended. */
  predicate Joined(s: State) {
    forall i :: 0 <= i < |s.todo| ==> s.todo[i] == []
  }

  // What every step keeps.

  function Records(reports: seq<(nat, Record)>): (rs: seq<Record>)
    ensures |rs| == |reports| && forall j :: 0 <= j < |rs| ==> rs[j] == reports[j].1
  {
    seq(|reports|, j requires 0 <= j < |reports| => reports[j].1)
  }

  /** What process i has reported. */
  function By(reports: seq<(nat, Record)>, i: nat): seq<Record> {
    if reports == [] then []
    else
      var n := |reports| - 1;
      By(reports[..n], i) + if reports[n].0 == i then [reports[n].1] else []
  }

  /** The fields of the record that is being put. */
  function Pending(s: State): seq<Field>
    requires LockOk(s)
  {
    if s.lock.Free? then [] else Fields(s.todo[s.lock.process][0])[..s.lock.put]
  }

  ghost predicate Inv(program: seq<seq<Record>>, s: State) {
    && LockOk(s) && |s.todo| == |program|
    && s.queue == Flatten(Records(s.reports)) + Pending(s)
    && (forall i :: 0 <= i < |program| ==> By(s.reports, i) + s.todo[i] == program[i])
    && (forall j :: 0 <= j < |s.reports| ==> s.reports[j].0 < |program|)
  }

  lemma RecordsOfOneMore(reports: seq<(nat, Record)>, x: (nat, Record))
    ensures Flatten(Records(reports + [x])) == Flatten(Records(reports)) + Fields(x.1)
  {
    var all := Records(reports + [x]);
    assert all[..|reports|] == Records(reports);
  }

  lemma ByOneMore(reports: seq<(nat, Record)>, x: (nat, Record), i: nat)
    ensures By(reports + [x], i) == By(reports, i) + if x.0 == i then [x.1] else []
  {
    assert (reports + [x])[..|reports|] == reports;
  }

  /** A release moves a record from the work of its process to its reports. */
  lemma ReleaseKeepsProgram(program: seq<seq<Record>>, s: State, i: nat, k: nat)
    requires i < |s.todo| && s.todo[i] != [] && k < |s.todo| == |program|
    requires By(s.reports, k) + s.todo[k] == program[k]
    ensures By(s.reports + [(i, s.todo[i][0])], k) + s.todo[i := s.todo[i][1..]][k] == program[k]
  {
    ByOneMore(s.reports, (i, s.todo[i][0]), k);
    assert s.todo[i] == [s.todo[i][0]] + s.todo[i][1..];
  }

  lemma ReleaseKeepsInv(program: seq<seq<Record>>, s: State, i: nat)
    requires Inv(program, s) && Enabled(s, i) && s.lock.Held? && s.lock.put == |Fields(s.todo[i][0])|
    ensures Inv(program, Apply(s, i))
  {
    var s' := Apply(s, i);
    RecordsOfOneMore(s.reports, (i, s.todo[i][0]));
    assert Pending(s) == Fields(s.todo[i][0]);
    assert s'.queue == Flatten(Records(s'.reports)) + Pending(s');
    forall k | 0 <= k < |program|
      ensures By(s'.reports, k) + s'.todo[k] == program[k]
    {
      assert By(s.reports, k) + s.todo[k] == program[k];
      ReleaseKeepsProgram(program, s, i, k);
    }
  }

  lemma StepKeepsInv(program: seq<seq<Record>>, s: State, i: nat)
    requires Inv(program, s) && Enabled(s, i)
    ensures Inv(program, Apply(s, i))
  {
    if s.lock.Held? {
      var fs := Fields(s.todo[i][0]);
      if s.lock.put < |fs| {
        assert fs[..s.lock.put + 1] == fs[..s.lock.put] + [fs[s.lock.put]];
      } else {
        ReleaseKeepsInv(program, s, i);
      }
    }
  }

  /** Under every interleaving the queue is whole records, then at most the start of the record of
      the process that holds the lock; and every process reported a part of its program. */
  lemma {:induction false} RunKeepsInv(program: seq<seq<Record>>, run: seq<nat>)
    requires Exec(program, run).Some?
    ensures Inv(program, Exec(program, run).value)
  {
    if run != [] {
      var n := |run| - 1;
      RunKeepsInv(program, run[..n]);
      StepKeepsInv(program, Exec(program, run[..n]).value, run[n]);
    }
  }

  /** No deadlock: until the join some process can step. */
  lemma SomeProcessCanStep(program: seq<seq<Record>>, run: seq<nat>)
    requires Exec(program, run).Some?
    ensures var s := Exec(program, run).value; Joined(s) <==> !exists i :: Enabled(s, i)
  {
    RunKeepsInv(program, run);
    var s := Exec(program, run).value;
    if s.lock.Held? {
      assert Enabled(s, s.lock.process);
    } else if i :| 0 <= i < |s.todo| && s.todo[i] != [] {
      assert Enabled(s, i);
    }
  }

  /** Steps that a list of records takes: one a field, two for the lock. */
  function StepsFor(rs: seq<Record>): nat {
    if rs == [] then 0 else |Fields(rs[0])| + 2 + StepsFor(rs[1..])
  }

  function StepsForAll(program: seq<seq<Record>>): nat {
    if program == [] then 0 else StepsFor(program[0]) + StepsForAll(program[1..])
  }

  lemma {:induction false} StepsForUpdate(todo: seq<seq<Record>>, i: nat, rs: seq<Record>)
    requires i < |todo|
    ensures StepsForAll(todo[i := rs]) == StepsForAll(todo) - StepsFor(todo[i]) + StepsFor(rs)
  {
    var todo' := todo[i := rs];
    if i > 0 {
      StepsForUpdate(todo[1..], i - 1, rs);
      assert todo'[1..] == todo[1..][i - 1 := rs];
    } else {
      assert todo'[1..] == todo[1..];
    }
  }

  function Taken(s: State): nat { if s.lock.Free? then 0 else 1 + s.lock.put }

  /** Every run is bounded: it has taken as many steps as the records it reported and the one in
      hand need. */
  lemma {:induction false} RunsAreBounded(program: seq<seq<Record>>, run: seq<nat>)
    requires Exec(program, run).Some?
    ensures var s := Exec(program, run).value; |run| + StepsForAll(s.todo) == StepsForAll(program) + Taken(s)
    ensures Joined(Exec(program, run).value) ==> |run| == StepsForAll(program)
  {
    if run != [] {
      var n := |run| - 1;
      RunsAreBounded(program, run[..n]);
      RunKeepsInv(program, run[..n]);
      var s, i := Exec(program, run[..n]).value, run[n];
      StepsForUpdate(s.todo, i, s.todo[i][1..]);
    }
    var s := Exec(program, run).value;
    if Joined(s) {
      NothingToDo(s.todo);
      RunKeepsInv(program, run);
      assert s.lock.Free?;
    }
  }

  lemma {:induction false} NothingToDo(todo: seq<seq<Record>>)
    requires forall i :: 0 <= i < |todo| ==> todo[i] == []
    ensures StepsForAll(todo) == 0
  {
    if todo != [] {
      NothingToDo(todo[1..]);
    }
  }

  // The consumer.

  /** k fields are a record if the first is a status and the others are texts. */
  predicate IsRecord(fs: seq<Field>) {
    fs != [] && fs[0].Count? && forall i :: 1 <= i < |fs| ==> fs[i].Text?
  }

  function TextsOf(fs: seq<Field>): (ts: seq<string>)
    requires forall i :: 0 <= i < |fs| ==> fs[i].Text?
    ensures TextFields(ts) == fs
  {
    seq(|fs|, i requires 0 <= i < |fs| => fs[i].s)
  }

  function RecordOf(fs: seq<Field>): (r: Record)
    requires IsRecord(fs)
    ensures Fields(r) == fs
  {
    Record(fs[0].n, TextsOf(fs[1..]))
  }

  /** What a consumer makes of the queue, k fields a record; None if it gets stuck: a get on an
      empty queue, or a text where a status is compared with 0. */
  function Parse(q: seq<Field>, k: nat): Option<seq<Record>>
    requires k > 0
  {
    if q == [] then Some([])
    else if |q| < k || !IsRecord(q[..k]) then None
    else
      match Parse(q[k..], k)
      case None => None
      case Some(rs) => Some([RecordOf(q[..k])] + rs)
  }

  lemma {:induction false} FlattenFront(r: Record, rs: seq<Record>)
    ensures Flatten([r] + rs) == Fields(r) + Flatten(rs)
  {
    if rs != [] {
      var n := |rs| - 1;
      FlattenFront(r, rs[..n]);
      assert ([r] + rs)[..n + 1] == [r] + rs[..n];
    } else {
      assert ([r] + rs)[..0] == [];
    }
  }

  lemma SameFields(r: Record, fs: seq<Field>)
    requires fs == Fields(r)
    ensures IsRecord(fs) && RecordOf(fs) == r
  {
    assert TextsOf(fs[1..]) == r.texts;
  }

  /** Reading k fields at a time undoes the queueing of whole records. */
  lemma {:induction false} ParseOfFlatten(rs: seq<Record>, k: nat)
    requires k > 0 && forall i :: 0 <= i < |rs| ==> |Fields(rs[i])| == k
    ensures Parse(Flatten(rs), k) == Some(rs)
    decreases |rs|
  {
    if rs != [] {
      var q := Flatten(rs);
      assert rs == [rs[0]] + rs[1..];
      FlattenFront(rs[0], rs[1..]);
      assert q[..k] == Fields(rs[0]) && q[k..] == Flatten(rs[1..]);
      SameFields(rs[0], q[..k]);
      ParseOfFlatten(rs[1..], k);
    }
  }

  datatype Verdict = OK | KO | PerfNotMet

  predicate Failing(rs: seq<Record>) { exists i :: 0 <= i < |rs| && rs[i].count < 0 }

  predicate Slow(rs: seq<Record>) { exists i :: 0 <= i < |rs| && rs[i].count > 0 }

  /** The verdict that the reports deserve: KO without any report or with a failure, PERF NOT MET
      (where the test has it) if one missed its target, OK otherwise. */
  function VerdictOf(rs: seq<Record>, perf: bool): Verdict {
    if rs == [] || Failing(rs) then KO else if perf && Slow(rs) then PerfNotMet else OK
  }

  lemma OneMoreReport(rs: seq<Record>, r: Record)
    ensures Failing(rs + [r]) <==> Failing(rs) || r.count < 0
    ensures Slow(rs + [r]) <==> Slow(rs) || r.count > 0
  {
    var all := rs + [r];
    assert all[|rs|] == r && forall i :: 0 <= i < |rs| ==> all[i] == rs[i];
  }

  /** What is read so far, in front of what is still to be read. */
  function Ahead(cells: seq<Record>, rest: Option<seq<Record>>): Option<seq<Record>> {
    match rest
    case None => None
    case Some(rs) => Some(cells + rs)
  }

  /** Drain the queue, k fields a record. `perf` is set for the throughput test, which alone looks
      at positive statuses. */
  method Consume(statusQueue: seq<Field>, k: nat, perf: bool) returns (out: Option<(Verdict, seq<Record>)>)
    requires k > 0
    ensures out.Some? <==> Parse(statusQueue, k).Some?
    ensures out.Some? ==> Parse(statusQueue, k) == Some(out.value.1) && out.value.0 == VerdictOf(out.value.1, perf)
  {
    if statusQueue == [] {
      return Some((KO, []));
    }
    var q, cells := statusQueue, [];
    var status, noperf := true, false;
    assert Parse(q, k).Some? ==> [] + Parse(q, k).value == Parse(q, k).value;
    while q != []
      invariant Parse(statusQueue, k) == Ahead(cells, Parse(q, k))
      invariant status == !Failing(cells) && noperf == Slow(cells)
      invariant q == [] ==> cells != []
      decreases |q|
    {
      if |q| < k || !IsRecord(q[..k]) {
        return None;
      }
      var r := RecordOf(q[..k]);
      if r.count < 0 {
        status := false;
      }
      if r.count > 0 {
        noperf := true;
      }
      OneMoreReport(cells, r);
      assert Parse(q[k..], k).Some? ==> (cells + [r]) + Parse(q[k..], k).value == cells + ([r] + Parse(q[k..], k).value);
      cells := cells + [r];
      q := q[k..];
    }
    assert cells + [] == cells;
    out := Some((if perf && noperf && status then PerfNotMet else if status then OK else KO, cells));
  }

  // The verdict and the interleaving.

  /** Some process of the program reports such a status. */
  ghost predicate Reports(program: seq<seq<Record>>, i: nat, r: Record) {
    i < |program| && r in program[i]
  }

  lemma {:induction false} ByIsMember(reports: seq<(nat, Record)>, i: nat, r: Record)
    ensures (i, r) in reports <==> r in By(reports, i)
  {
    if reports != [] {
      ByIsMember(reports[..|reports| - 1], i, r);
      assert reports == reports[..|reports| - 1] + [reports[|reports| - 1]];
    }
  }

  /** After the join the queue is whole records, the reports of all programs and no others. */
  lemma AllReported(program: seq<seq<Record>>, run: seq<nat>)
    requires Exec(program, run).Some? && Joined(Exec(program, run).value)
    ensures var s := Exec(program, run).value;
            && s.queue == Flatten(Records(s.reports))
            && (forall i :: 0 <= i < |program| ==> By(s.reports, i) == program[i])
            && (forall i: nat, r :: (i, r) in s.reports <==> Reports(program, i, r))
  {
    RunKeepsInv(program, run);
    var s := Exec(program, run).value;
    assert s.lock.Free?;
    forall i | 0 <= i < |program|
      ensures By(s.reports, i) == program[i]
    {
      assert By(s.reports, i) + s.todo[i] == program[i];
    }
    forall i: nat, r
      ensures (i, r) in s.reports <==> Reports(program, i, r)
    {
      ByIsMember(s.reports, i, r);
    }
  }

  /** The verdict in terms of the programs alone. */
  ghost function VerdictFor(program: seq<seq<Record>>, perf: bool): Verdict {
    if (forall i :: 0 <= i < |program| ==> program[i] == []) || (exists i: nat, r :: Reports(program, i, r) && r.count < 0) then KO
    else if perf && (exists i: nat, r :: Reports(program, i, r) && r.count > 0) then PerfNotMet
    else OK
  }

  lemma ReportedStatus(program: seq<seq<Record>>, reports: seq<(nat, Record)>)
    requires forall i: nat, r :: (i, r) in reports <==> Reports(program, i, r)
    ensures Records(reports) == [] <==> forall i :: 0 <= i < |program| ==> program[i] == []
    ensures Failing(Records(reports)) <==> exists i: nat, r :: Reports(program, i, r) && r.count < 0
    ensures Slow(Records(reports)) <==> exists i: nat, r :: Reports(program, i, r) && r.count > 0
  {
    var rs := Records(reports);
    forall j | 0 <= j < |rs|
      ensures Reports(program, reports[j].0, rs[j])
    {
      assert (reports[j].0, reports[j].1) in reports;
    }
    assert rs != [] ==> Reports(program, reports[0].0, rs[0]) && program[reports[0].0] != [];
    forall i: nat, r | Reports(program, i, r)
      ensures exists j :: 0 <= j < |rs| && rs[j] == r
    {
      assert (i, r) in reports;
      var j :| 0 <= j < |reports| && reports[j] == (i, r);
      assert rs[j] == r;
    }
    forall i | 0 <= i < |program| && program[i] != []
      ensures rs != []
    {
      assert Reports(program, i, program[i][0]);
    }
  }

  /** Whatever the interleaving, the consumer reads exactly the reports, and the verdict is the
      one of the programs. */
  lemma VerdictIsIndependent(program: seq<seq<Record>>, run: seq<nat>, k: nat, perf: bool)
    requires k > 0 && forall i: nat, r :: Reports(program, i, r) ==> |Fields(r)| == k
    requires Exec(program, run).Some? && Joined(Exec(program, run).value)
    ensures var s := Exec(program, run).value;
            Parse(s.queue, k) == Some(Records(s.reports)) && VerdictOf(Records(s.reports), perf) == VerdictFor(program, perf)
  {
    AllReported(program, run);
    var s := Exec(program, run).value;
    ReportedStatus(program, s.reports);
    forall j | 0 <= j < |s.reports|
      ensures |Fields(Records(s.reports)[j])| == k
    {
      assert (s.reports[j].0, s.reports[j].1) in s.reports;
      assert Reports(program, s.reports[j].0, s.reports[j].1);
    }
    ParseOfFlatten(Records(s.reports), k);
  }
}
