/** The branch, dbt, merge or delete protocol of the lakehouse DAG (lakehouse.py) against a
    versioned lake, with task retries, unanswered requests that may still land, and other writers. */
module Lakehouse {
  import opened Series

  // ----- branch names -----

  predicate Allowed(c: char) {
    'A' <= c <= 'Z' || 'a' <= c <= 'z' || '0' <= c <= '9' || c == '_' || c == '-'
  }

  function Sanitized(id: string): (s: string) {
    seq(|id|, i requires 0 <= i < |id| => if Allowed(id[i]) then id[i] else '_')
  }

  const PREFIX: string := "dbt-run-"

  function BranchName(runId: string): string {
    PREFIX + Sanitized(runId)
  }

  /** Every run id gives an id the lake accepts. */
  lemma BranchNameValid(runId: string)
    ensures var n := BranchName(runId);
            |n| == |PREFIX| + |runId| && n[0] != '-' && forall i :: 0 <= i < |n| ==> Allowed(n[i])
  {
  }

  /** A character the name shows as an underscore. */
  predicate Blank(c: char) {
    c == '_' || !Allowed(c)
  }

  /** Two run ids share a branch exactly when they differ only in characters shown as underscores. */
  lemma NamesCollideExactly(a: string, b: string)
    ensures BranchName(a) == BranchName(b) <==>
            |a| == |b| && forall i :: 0 <= i < |a| ==> a[i] == b[i] || (Blank(a[i]) && Blank(b[i]))
  {
    var m, n := BranchName(a), BranchName(b);
    assert m[|PREFIX|..] == Sanitized(a) && n[|PREFIX|..] == Sanitized(b);
    assert m == n <==> Sanitized(a) == Sanitized(b);
    if |a| == |b| && forall i :: 0 <= i < |a| ==> a[i] == b[i] || (Blank(a[i]) && Blank(b[i])) {
      assert Sanitized(a) == Sanitized(b);
    } else if |a| == |b| {
      var i :| 0 <= i < |a| && a[i] != b[i] && !(Blank(a[i]) && Blank(b[i]));
      assert Sanitized(a)[i] != Sanitized(b)[i];
    }
  }

  // ----- the lake -----

  /** A commit dbt made in this run, numbered in order, or somebody else's. */
  datatype Commit = Own(i: nat) | Other(i: nat)

  datatype Request = CreateBranch(name: string) | MergeBranch(name: string) | DeleteBranch(name: string)

  /** The lake, requests whose answer never came and which may still land, and the branch name the
      create task handed on. */
  datatype World = World(main: seq<Commit>, branches: map<string, seq<Commit>>, late: seq<Request>,
                         xcom: Option<string>)

  /** The commits of a branch that main lacks. */
  function Diff(main: seq<Commit>, branch: seq<Commit>): (d: seq<Commit>) {
    if branch == [] then []
    else
      var before, last := Diff(main, branch[..|branch| - 1]), branch[|branch| - 1];
      if last in main then before else before + [last]
  }

  datatype Reply = Reply(world: World, code: nat)

  function Serve(w: World, r: Request): Reply {
    match r
    case CreateBranch(n) =>
      if n in w.branches then Reply(w, 409) else Reply(w.(branches := w.branches[n := w.main]), 201)
    case MergeBranch(n) =>
      if n !in w.branches then Reply(w, 404)
      else if Diff(w.main, w.branches[n]) == [] then Reply(w, 400)
      else Reply(w.(main := w.main + Diff(w.main, w.branches[n])), 200)
    case DeleteBranch(n) =>
      if n !in w.branches then Reply(w, 404) else Reply(w.(branches := w.branches - {n}), 204)
  }

  /** What happens meanwhile: an unanswered request lands, or others commit to main and do
      as they like with other branches. */
  datatype Event = Land(i: nat) | Commits(ids: seq<nat>, others: map<string, seq<Commit>>)

  function Others(ids: seq<nat>): (c: seq<Commit>)
    ensures |c| == |ids| && forall i :: 0 <= i < |c| ==> c[i].Other?
  {
    seq(|ids|, i requires 0 <= i < |ids| => Other(ids[i]))
  }

  function Happen(w: World, e: Event, name: string): World {
    match e
    case Land(i) =>
      if i < |w.late| then Serve(w.(late := w.late[..i] + w.late[i + 1..]), w.late[i]).world else w
    case Commits(ids, others) =>
      w.(main := w.main + Others(ids),
         branches := (others - {name}) + map n | n in w.branches && n == name :: w.branches[n])
  }

  function Elapse(w: World, events: seq<Event>, name: string): World {
    if events == [] then w else Happen(Elapse(w, events[..|events| - 1], name), events[|events| - 1], name)
  }

  // ----- task functions -----

  /** How the caller sees a request end: served, refused with an error status and nothing done, or
      without an answer, in which case it may still land. */
  datatype Answer = Served | Refused | Unanswered

  datatype TaskResult = TaskResult(world: World, raised: bool)

  /** One request with its end as the caller sees it; no answer reads as code 0. */
  function Sent(w: World, r: Request, answer: Answer): Reply {
    match answer
    case Served => Serve(w, r)
    case Refused => Reply(w, 500)
    case Unanswered => Reply(w.(late := w.late + [r]), 0)
  }

  function CreateTask(w: World, runId: string, answer: Answer): TaskResult {
    var name := BranchName(runId);
    var r := Sent(w, CreateBranch(name), answer);
    if r.code == 0 || r.code >= 400 then TaskResult(r.world, true) else TaskResult(r.world.(xcom := Some(name)), false)
  }

  function MergeTask(w: World, diff: Answer, meanwhile: seq<Event>, post: Answer): TaskResult {
    match w.xcom
    case None => TaskResult(w, true)
    case Some(name) =>
      if !diff.Served? || name !in w.branches then TaskResult(w, true)
      else if Diff(w.main, w.branches[name]) == [] then TaskResult(w, false)
      else
        var r := Sent(Elapse(w, meanwhile, name), MergeBranch(name), post);
        TaskResult(r.world, r.code == 0 || (r.code >= 400 && r.code != 400))
  }

  function DeleteTask(w: World, answer: Answer): TaskResult {
    match w.xcom
    case None => TaskResult(w, false)
    case Some(name) =>
      var r := Sent(w, DeleteBranch(name), answer);
      TaskResult(r.world, r.code == 0 || (r.code >= 400 && r.code != 404))
  }

  /** Task functions over the lake they change. */
  class LakehouseTasks {
    const runId: string
    var main: seq<Commit>
    var branches: map<string, seq<Commit>>
    var late: seq<Request>
    var xcom: Option<string>

    function Now(): World
      reads this
    {
      World(main, branches, late, xcom)
    }

    constructor (runId: string, main: seq<Commit>, branches: map<string, seq<Commit>>)
      ensures this.runId == runId && Now() == World(main, branches, [], None)
    {
      this.runId, this.main, this.branches, late, xcom := runId, main, branches, [], None;
    }

    /** One request as the caller sees it. */
    method Send(r: Request, answer: Answer) returns (code: nat)
      modifies this
      ensures Reply(Now(), code) == Sent(old(Now()), r, answer)
    {
      hide Serve;
      match answer
      case Served => code := Process(r);
      case Refused => code := 500;
      case Unanswered =>
        late := late + [r];
        code := 0;
    }

    /** The server's side of a request. */
    method Process(r: Request) returns (code: nat)
      modifies this
      ensures Reply(Now(), code) == Serve(old(Now()), r)
    {
      match r
      case CreateBranch(n) =>
        if n in branches {
          return 409;
        }
        branches := branches[n := main];
        code := 201;
      case MergeBranch(n) =>
        if n !in branches {
          return 404;
        }
        var d := Diff(main, branches[n]);
        if d == [] {
          return 400;
        }
        main := main + d;
        code := 200;
      case DeleteBranch(n) =>
        if n !in branches {
          return 404;
        }
        branches := branches - {n};
        code := 204;
    }

    method Wait(events: seq<Event>, name: string)
      modifies this
      ensures Now() == Elapse(old(Now()), events, name)
    {
      hide Diff;
      for i := 0 to |events|
        invariant Now() == Elapse(old(Now()), events[..i], name)
      {
        assert events[..i + 1][..i] == events[..i];
        match events[i]
        case Land(k) =>
          if k < |late| {
            var r := late[k];
            late := late[..k] + late[k + 1..];
            var _ := Process(r);
          }
        case Commits(ids, others) =>
          main := main + Others(ids);
          branches := (others - {name}) + map n | n in branches && n == name :: branches[n];
      }
      assert events[..|events|] == events;
    }

    method CreateLakefsBranch(answer: Answer) returns (raised: bool)
      modifies this
      ensures TaskResult(Now(), raised) == CreateTask(old(Now()), runId, answer)
    {
      var branch := BranchName(runId);
      var code := Send(CreateBranch(branch), answer);
      if code == 0 || code >= 400 {
        return true;
      }
      xcom := Some(branch);
      raised := false;
    }

    method MergeLakefsBranch(diff: Answer, meanwhile: seq<Event>, post: Answer) returns (raised: bool)
      modifies this
      ensures TaskResult(Now(), raised) == MergeTask(old(Now()), diff, meanwhile, post)
    {
      hide Elapse, Diff, Sent;
      if xcom.None? {
        return true;
      }
      var branch := xcom.value;
      if !diff.Served? || branch !in branches {
        return true;
      }
      if Diff(main, branches[branch]) == [] {
        return false;
      }
      Wait(meanwhile, branch);
      var code := Send(MergeBranch(branch), post);
      raised := code == 0 || (code != 400 && code >= 400);
    }

    method DeleteLakefsBranch(answer: Answer) returns (raised: bool)
      modifies this
      ensures TaskResult(Now(), raised) == DeleteTask(old(Now()), answer)
    {
      if xcom.None? {
        return false;
      }
      var branch := xcom.value;
      var code := Send(DeleteBranch(branch), answer);
      raised := code == 0 || (code != 404 && code >= 400);
    }
  }

  // ----- the scheduler -----

  const RETRIES := 2

  datatype Task = Waiting(failures: nat) | Succeeded | Failed | UpstreamFailed | Skipped
  {
    predicate Bad() { Failed? || UpstreamFailed? }
  }

  function Attempted(t: Task, raised: bool): Task
    requires t.Waiting?
  {
    if !raised then Succeeded else if t.failures < RETRIES then Waiting(t.failures + 1) else Failed
  }

  /** `written` counts the commits dbt made on the branch. */
  datatype State = State(world: World, written: nat, repo: Task, create: Task, dbt: Task, merge: Task, delete: Task)

  datatype Step =
    | Ensure(ok: bool)
    | Create(answer: Answer)
    | Write
    | Dbt(ok: bool)
    | Merge(diff: Answer, meanwhile: seq<Event>, post: Answer)
    | Delete(answer: Answer)
    | Propagate
    | Outside(event: Event)

  /** A task runs when its upstream succeeded; delete runs when dbt or something before it failed
      and is skipped otherwise. */
  function Next(s: State, runId: string, step: Step): State {
    var name := BranchName(runId);
    match step
    case Ensure(ok) => if s.repo.Waiting? then s.(repo := Attempted(s.repo, !ok)) else s
    case Create(answer) =>
      if s.repo.Succeeded? && s.create.Waiting? then
        var r := CreateTask(s.world, runId, answer);
        s.(world := r.world, create := Attempted(s.create, r.raised))
      else s
    case Write =>
      if s.create.Succeeded? && s.dbt.Waiting? && name in s.world.branches then
        s.(world := s.world.(branches := s.world.branches[name := s.world.branches[name] + [Own(s.written)]]),
           written := s.written + 1)
      else s
    case Dbt(ok) => if s.create.Succeeded? && s.dbt.Waiting? then s.(dbt := Attempted(s.dbt, !ok)) else s
    case Merge(diff, meanwhile, post) =>
      if s.dbt.Succeeded? && s.merge.Waiting? then
        var r := MergeTask(s.world, diff, meanwhile, post);
        s.(world := r.world, merge := Attempted(s.merge, r.raised))
      else s
    case Delete(answer) =>
      if s.dbt.Bad() && s.delete.Waiting? then
        var r := DeleteTask(s.world, answer);
        s.(world := r.world, delete := Attempted(s.delete, r.raised))
      else s
    case Propagate =>
      s.(create := if s.create.Waiting? && s.repo.Bad() then UpstreamFailed else s.create,
         dbt := if s.dbt.Waiting? && s.create.Bad() then UpstreamFailed else s.dbt,
         merge := if s.merge.Waiting? && s.dbt.Bad() then UpstreamFailed else s.merge,
         delete := if s.delete.Waiting? && s.dbt.Succeeded? then Skipped else s.delete)
    case Outside(e) => s.(world := Happen(s.world, e, name))
  }

  function Start(main: seq<Commit>, branches: map<string, seq<Commit>>): State {
    State(World(main, branches, [], None), 0, Waiting(0), Waiting(0), Waiting(0), Waiting(0), Waiting(0))
  }

  function Run(s: State, runId: string, steps: seq<Step>): State {
    if steps == [] then s else Next(Run(s, runId, steps[..|steps| - 1]), runId, steps[|steps| - 1])
  }

  // ----- this run's commits -----

  function OwnOf(c: seq<Commit>): seq<Commit> {
    if c == [] then []
    else
      var before := OwnOf(c[..|c| - 1]);
      if c[|c| - 1].Own? then before + [c[|c| - 1]] else before
  }

  /** Everything dbt wrote, in order. */
  function Written(n: nat): (c: seq<Commit>)
    ensures |c| == n && forall i :: 0 <= i < n ==> c[i] == Own(i)
  {
    seq(n, i requires 0 <= i < n => Own(i))
  }

  lemma {:induction false} OwnOfConcat(a: seq<Commit>, b: seq<Commit>)
    ensures OwnOf(a + b) == OwnOf(a) + OwnOf(b)
  {
    if b == [] {
      assert a + b == a;
    } else {
      assert (a + b)[..|a + b| - 1] == a + b[..|b| - 1];
      OwnOfConcat(a, b[..|b| - 1]);
    }
  }

  lemma {:induction false} OwnOfOthers(c: seq<Commit>)
    requires forall i :: 0 <= i < |c| ==> c[i].Other?
    ensures OwnOf(c) == []
  {
    if c != [] { OwnOfOthers(c[..|c| - 1]); }
  }

  lemma {:induction false} OwnOfHolds(c: seq<Commit>, x: Commit)
    ensures x in OwnOf(c) <==> x in c && x.Own?
  {
    if c != [] {
      OwnOfHolds(c[..|c| - 1], x);
      assert c == c[..|c| - 1] + [c[|c| - 1]];
    }
  }

  /** Before this run's commits reach main, the diff holds all of the branch's. */
  lemma {:induction false} DiffOfUnmerged(main: seq<Commit>, branch: seq<Commit>)
    requires OwnOf(main) == []
    ensures OwnOf(Diff(main, branch)) == OwnOf(branch)
  {
    if branch != [] {
      var n := |branch| - 1;
      DiffOfUnmerged(main, branch[..n]);
      OwnOfHolds(main, branch[n]);
      if branch[n] !in main { OwnOfConcat(Diff(main, branch[..n]), [branch[n]]); OwnOfSingle(branch[n]); }
    }
  }

  lemma OwnOfSingle(x: Commit)
    ensures OwnOf([x]) == if x.Own? then [x] else []
  {
  }

  /** Once they are there, it holds none. */
  lemma {:induction false} DiffOfMerged(main: seq<Commit>, branch: seq<Commit>)
    requires forall x :: x in OwnOf(branch) ==> x in main
    ensures OwnOf(Diff(main, branch)) == []
  {
    if branch != [] {
      var n := |branch| - 1;
      forall x | x in OwnOf(branch[..n]) ensures x in main {
        OwnOfHolds(branch, x);
        OwnOfHolds(branch[..n], x);
      }
      DiffOfMerged(main, branch[..n]);
      OwnOfHolds(branch, branch[n]);
      if branch[n] !in main { OwnOfConcat(Diff(main, branch[..n]), [branch[n]]); OwnOfSingle(branch[n]); }
    }
  }

  lemma {:induction false} DiffEmpty(main: seq<Commit>, branch: seq<Commit>)
    requires Diff(main, branch) == []
    ensures forall x :: x in branch ==> x in main
  {
    if branch != [] {
      DiffEmpty(main, branch[..|branch| - 1]);
      assert branch == branch[..|branch| - 1] + [branch[|branch| - 1]];
    }
  }

  // ----- safety over every run -----

  /** Main holds none of this run's commits, or, once dbt succeeded, all of them once and in order. */
  predicate AllOrNothing(s: State) {
    OwnOf(s.world.main) == [] || (s.dbt.Succeeded? && OwnOf(s.world.main) == Written(s.written))
  }

  /** Unanswered requests concern this run's branch, and merges and deletes never coexist. */
  predicate LateRequests(s: State, name: string) {
    forall r :: r in s.world.late ==>
      && r.name == name && (r.CreateBranch? || s.create.Succeeded?)
      && (r.MergeBranch? ==> s.dbt.Succeeded?) && (r.DeleteBranch? ==> s.dbt.Bad())
  }

  /** Until dbt fails, the branch holds everything dbt wrote. */
  predicate BranchKept(s: State, name: string) {
    s.create.Succeeded? && !s.dbt.Bad() ==>
      name in s.world.branches && OwnOf(s.world.branches[name]) == Written(s.written)
  }

  predicate Statuses(s: State, name: string) {
    && s.world.xcom == (if s.create.Succeeded? then Some(name) else None)
    && (!s.create.Succeeded? ==> s.written == 0 && !s.dbt.Succeeded?)
    && (s.dbt.Waiting? || (!s.create.Waiting? && (s.dbt.Succeeded? || s.dbt.Bad())))
    && (s.merge.Succeeded? ==> s.dbt.Succeeded? && OwnOf(s.world.main) == Written(s.written))
    && (s.delete.Succeeded? || s.delete.Failed? ==> s.dbt.Bad())
    && (s.delete.Skipped? ==> s.dbt.Succeeded?)
  }

  predicate Good(s: State, name: string) {
    AllOrNothing(s) && LateRequests(s, name) && BranchKept(s, name) && Statuses(s, name)
  }

  /** The lake's answer to a merge of the branch publishes everything dbt wrote, or changes nothing
      because it is there. */
  lemma MergePublishes(s: State, name: string)
    requires Good(s, name) && s.dbt.Succeeded?
    ensures var after := Serve(s.world, MergeBranch(name)).world;
            && after == s.world.(main := after.main)
            && OwnOf(after.main) == Written(s.written)
            && Serve(s.world, MergeBranch(name)).code != 404
  {
    var main, branch := s.world.main, s.world.branches[name];
    var d := Diff(main, branch);
    OwnOfConcat(main, d);
    if OwnOf(main) == [] {
      DiffOfUnmerged(main, branch);
    } else {
      forall x | x in OwnOf(branch) ensures x in main {
        OwnOfHolds(main, x);
      }
      DiffOfMerged(main, branch);
    }
    assert OwnOf(main + d) == Written(s.written);
    if d == [] { assert main + d == main; }
  }

  lemma LandKeeps(s: State, runId: string, i: nat)
    requires Good(s, BranchName(runId)) && i < |s.world.late|
    ensures Good(Next(s, runId, Outside(Land(i))), BranchName(runId))
  {
    hide Diff, OwnOf, BranchName;
    var name, r := BranchName(runId), s.world.late[i];
    var rest := s.world.late[..i] + s.world.late[i + 1..];
    var t := s.(world := s.world.(late := rest));
    assert r in s.world.late;
    assert Good(t, name) by {
      assert forall q :: q in rest ==> q in s.world.late;
    }
    if r.MergeBranch? { MergePublishes(t, name); }
  }

  lemma HappenKeeps(s: State, runId: string, e: Event)
    requires Good(s, BranchName(runId))
    ensures Good(Next(s, runId, Outside(e)), BranchName(runId))
  {
    match e
    case Land(i) => if i < |s.world.late| { LandKeeps(s, runId, i); }
    case Commits(ids, others) =>
      OwnOfConcat(s.world.main, Others(ids));
      OwnOfOthers(Others(ids));
  }

  lemma {:induction false} ElapseKeeps(s: State, runId: string, events: seq<Event>)
    requires Good(s, BranchName(runId))
    ensures Good(s.(world := Elapse(s.world, events, BranchName(runId))), BranchName(runId))
    ensures Elapse(s.world, events, BranchName(runId)).xcom == s.world.xcom
  {
    hide Happen, Good;
    if events != [] {
      var n := |events| - 1;
      ElapseKeeps(s, runId, events[..n]);
      var t := s.(world := Elapse(s.world, events[..n], BranchName(runId)));
      HappenKeeps(t, runId, events[n]);
      HappenKeepsXcom(t.world, events[n], BranchName(runId));
    }
  }

  lemma HappenKeepsXcom(w: World, e: Event, name: string)
    ensures Happen(w, e, name).xcom == w.xcom
  {
  }

  lemma MergeKeeps(s: State, runId: string, diff: Answer, meanwhile: seq<Event>, post: Answer)
    requires Good(s, BranchName(runId)) && s.dbt.Succeeded? && s.merge.Waiting?
    ensures Good(Next(s, runId, Merge(diff, meanwhile, post)), BranchName(runId))
  {
    hide Diff, OwnOf, BranchName, Elapse, Serve;
    var name := BranchName(runId);
    if diff.Served? {
      if Diff(s.world.main, s.world.branches[name]) == [] {
        NothingLeft(s, name);
      } else {
        ElapseKeeps(s, runId, meanwhile);
        var t := s.(world := Elapse(s.world, meanwhile, name));
        if post.Served? { MergePublishes(t, name); }
      }
    }
  }

  lemma NothingLeft(s: State, name: string)
    requires Good(s, name) && s.dbt.Succeeded? && Diff(s.world.main, s.world.branches[name]) == []
    ensures OwnOf(s.world.main) == Written(s.written)
  {
    var main, branch := s.world.main, s.world.branches[name];
    DiffEmpty(main, branch);
    if s.written > 0 {
      assert Own(0) in OwnOf(branch) by { assert OwnOf(branch)[0] == Own(0); }
      OwnOfHolds(branch, Own(0));
      OwnOfHolds(main, Own(0));
    }
  }

  lemma WriteKeeps(s: State, runId: string)
    requires Good(s, BranchName(runId))
    ensures Good(Next(s, runId, Write), BranchName(runId))
  {
    hide Diff, BranchName, OwnOf;
    var name := BranchName(runId);
    if name in s.world.branches {
      OwnOfConcat(s.world.branches[name], [Own(s.written)]);
      OwnOfSingle(Own(s.written));
      assert Written(s.written) + [Own(s.written)] == Written(s.written + 1);
    }
  }

  lemma NextKeeps(s: State, runId: string, step: Step)
    requires Good(s, BranchName(runId))
    ensures Good(Next(s, runId, step), BranchName(runId))
  {
    hide Diff, BranchName, Elapse, OwnOf;
    match step
    case Write => WriteKeeps(s, runId);
    case Merge(d, m, p) => if s.dbt.Succeeded? && s.merge.Waiting? { MergeKeeps(s, runId, d, m, p); }
    case Outside(e) => HappenKeeps(s, runId, e);
    case _ =>
  }

  lemma {:induction false} RunKeeps(s: State, runId: string, steps: seq<Step>)
    requires Good(s, BranchName(runId))
    ensures Good(Run(s, runId, steps), BranchName(runId))
  {
    hide Next, Good;
    if steps != [] {
      RunKeeps(s, runId, steps[..|steps| - 1]);
      NextKeeps(Run(s, runId, steps[..|steps| - 1]), runId, steps[|steps| - 1]);
    }
  }

  /** The commits of this run start out nowhere. */
  predicate Untouched(main: seq<Commit>) {
    OwnOf(main) == []
  }

  /** In every run, whatever is lost, late or retried: main holds none of what dbt wrote or all of it
      once and in order; none unless dbt succeeded; all once the merge task succeeded; and a run that
      publishes or may publish neither deletes its branch nor has a delete under way. */
  lemma PublishAllOrNothing(main: seq<Commit>, branches: map<string, seq<Commit>>, runId: string, steps: seq<Step>)
    requires Untouched(main)
    ensures var s, name := Run(Start(main, branches), runId, steps), BranchName(runId);
            && (OwnOf(s.world.main) == [] || OwnOf(s.world.main) == Written(s.written))
            && (OwnOf(s.world.main) != [] ==> s.dbt.Succeeded?)
            && (s.merge.Succeeded? ==> OwnOf(s.world.main) == Written(s.written))
            && (s.dbt.Succeeded? ==>
                  && name in s.world.branches && OwnOf(s.world.branches[name]) == Written(s.written)
                  && !s.delete.Succeeded? && forall r :: r in s.world.late ==> !r.DeleteBranch?)
            && (s.delete.Succeeded? ==>
                  OwnOf(s.world.main) == [] && !s.merge.Succeeded? && forall r :: r in s.world.late ==> !r.MergeBranch?)
  {
    hide BranchName, Run;
    assert Good(Start(main, branches), BranchName(runId));
    RunKeeps(Start(main, branches), runId, steps);
  }

  // ----- rollback -----

  /** A branch of this name was there at the start or a late create request landed, and no delete of
      this run was served since. */
  predicate LeftOver(s: State, runId: string, steps: seq<Step>) {
    if steps == [] then BranchName(runId) in s.world.branches
    else
      var before := steps[..|steps| - 1];
      LeftOverNext(Run(s, runId, before), LeftOver(s, runId, before), steps[|steps| - 1])
  }

  predicate LeftOverNext(s: State, leftOver: bool, step: Step) {
    match step
    case Outside(Land(i)) =>
      if i < |s.world.late| && !s.world.late[i].MergeBranch? then s.world.late[i].CreateBranch? else leftOver
    case Delete(answer) =>
      leftOver && !(answer.Served? && s.dbt.Bad() && s.delete.Waiting? && s.world.xcom.Some?)
    case _ => leftOver
  }

  /** While create has not succeeded, and again after a finished rollback, that is exactly when the
      branch exists. */
  predicate BranchIsLeftOver(s: State, name: string, leftOver: bool) {
    !s.create.Succeeded? || s.delete.Succeeded? ==> (name in s.world.branches <==> leftOver)
  }

  lemma LeftOverKept(s: State, runId: string, leftOver: bool, step: Step)
    requires Good(s, BranchName(runId)) && BranchIsLeftOver(s, BranchName(runId), leftOver)
    ensures BranchIsLeftOver(Next(s, runId, step), BranchName(runId), LeftOverNext(s, leftOver, step))
  {
    hide BranchName, Diff, OwnOf, Elapse;
    if step.Outside? && step.event.Land? && step.event.i < |s.world.late| {
      assert s.world.late[step.event.i] in s.world.late;
    }
  }

  /** When a finished rollback leaves a branch, whatever was refused, lost or late: exactly when one
      was there before or a late create request landed, and no delete was served since. Main holds
      nothing of this run in any case. */
  lemma {:induction false} RollbackExactly(main: seq<Commit>, branches: map<string, seq<Commit>>, runId: string,
                                           steps: seq<Step>)
    requires Untouched(main)
    ensures var s := Run(Start(main, branches), runId, steps);
            && BranchIsLeftOver(s, BranchName(runId), LeftOver(Start(main, branches), runId, steps))
            && (s.delete.Succeeded? ==>
                  && (BranchName(runId) in s.world.branches <==> LeftOver(Start(main, branches), runId, steps))
                  && OwnOf(s.world.main) == [])
  {
    hide BranchName, Next, OwnOf, LeftOverNext;
    var start := Start(main, branches);
    assert Good(start, BranchName(runId));
    RunKeeps(start, runId, steps);
    if steps != [] {
      var n := |steps| - 1;
      RollbackExactly(main, branches, runId, steps[..n]);
      RunKeeps(start, runId, steps[..n]);
      LeftOverKept(Run(start, runId, steps[..n]), runId, LeftOver(start, runId, steps[..n]), steps[n]);
    }
  }

  /** No create request is lost; some may be refused. */
  predicate NoCreateLost(steps: seq<Step>) {
    forall i :: 0 <= i < |steps| && steps[i].Create? ==> !steps[i].answer.Unanswered?
  }

  predicate NoCreateRefused(steps: seq<Step>) {
    forall i :: 0 <= i < |steps| && steps[i].Create? ==> !steps[i].answer.Refused?
  }

  predicate NoLateCreate(w: World) {
    forall r :: r in w.late ==> !r.CreateBranch?
  }

  lemma HappenAddsNoCreate(w: World, e: Event, name: string)
    requires NoLateCreate(w)
    ensures NoLateCreate(Happen(w, e, name))
  {
    hide Diff;
    if e.Land? && e.i < |w.late| {
      var rest := w.late[..e.i] + w.late[e.i + 1..];
      assert forall q :: q in rest ==> q in w.late;
    }
  }

  lemma {:induction false} ElapseAddsNoCreate(w: World, events: seq<Event>, name: string)
    requires NoLateCreate(w)
    ensures NoLateCreate(Elapse(w, events, name))
  {
    hide Happen;
    if events != [] {
      ElapseAddsNoCreate(w, events[..|events| - 1], name);
      HappenAddsNoCreate(Elapse(w, events[..|events| - 1], name), events[|events| - 1], name);
    }
  }

  lemma NextAddsNoCreate(s: State, runId: string, step: Step)
    requires NoLateCreate(s.world) && (step.Create? ==> !step.answer.Unanswered?)
    ensures NoLateCreate(Next(s, runId, step).world)
  {
    hide BranchName, Diff, Elapse, Happen;
    match step
    case Merge(_, meanwhile, _) =>
      if s.world.xcom.Some? { ElapseAddsNoCreate(s.world, meanwhile, s.world.xcom.value); }
    case Outside(e) => HappenAddsNoCreate(s.world, e, BranchName(runId));
    case _ =>
  }

  /** When no create request is lost and no branch of that name was there, a finished rollback leaves
      no branch and nothing of this run on main, however often requests are refused. When none is
      refused either, the create task does not run out of retries. */
  lemma {:induction false} RollbackComplete(main: seq<Commit>, branches: map<string, seq<Commit>>, runId: string,
                                            steps: seq<Step>)
    requires Untouched(main) && BranchName(runId) !in branches && NoCreateLost(steps)
    ensures var s := Run(Start(main, branches), runId, steps);
            && NoLateCreate(s.world) && !LeftOver(Start(main, branches), runId, steps)
            && (s.delete.Succeeded? ==> BranchName(runId) !in s.world.branches && OwnOf(s.world.main) == [])
            && (NoCreateRefused(steps) ==> !s.create.Failed?)
  {
    hide BranchName, OwnOf, Diff, Elapse, Happen;
    var start := Start(main, branches);
    RollbackExactly(main, branches, runId, steps);
    if steps != [] {
      var n := |steps| - 1;
      RollbackComplete(main, branches, runId, steps[..n]);
      RollbackExactly(main, branches, runId, steps[..n]);
      NextAddsNoCreate(Run(start, runId, steps[..n]), runId, steps[n]);
    }
  }

  /** Refusals alone can use up the retries. */
  lemma RefusalsFailCreate(main: seq<Commit>, branches: map<string, seq<Commit>>, runId: string)
    ensures var steps := [Ensure(true), Create(Refused), Create(Refused), Create(Refused)];
            Run(Start(main, branches), runId, steps).create == Failed
  {
    hide BranchName;
    var s, e, c := Start(main, branches), Ensure(true), Create(Refused);
    RunStep(s, runId, [], e);
    assert [] + [e] == [e];
    RunStep(s, runId, [e], c);
    assert [e] + [c] == [e, c];
    RunStep(s, runId, [e, c], c);
    assert [e, c] + [c] == [e, c, c];
    RunStep(s, runId, [e, c, c], c);
    assert [e, c, c] + [c] == [e, c, c, c];
  }

  /** A finished rollback stays clean whatever happens next exactly when the branch is gone and no
      create request is still under way. */
  lemma RollbackStaysClean(s: State, runId: string)
    requires Good(s, BranchName(runId)) && s.delete.Succeeded?
    ensures (forall steps :: BranchName(runId) !in Run(s, runId, steps).world.branches)
            <==> BranchName(runId) !in s.world.branches && NoLateCreate(s.world)
  {
    hide BranchName, Next;
    RunNothing(s, runId);
    if BranchName(runId) !in s.world.branches && NoLateCreate(s.world) {
      forall steps ensures BranchName(runId) !in Run(s, runId, steps).world.branches {
        StaysClean(s, runId, steps);
      }
    } else if BranchName(runId) in s.world.branches {
      assert BranchName(runId) in Run(s, runId, []).world.branches;
    } else {
      var i :| 0 <= i < |s.world.late| && s.world.late[i].CreateBranch?;
      LandsCreate(s, runId, i);
      RunStep(s, runId, [], Outside(Land(i)));
      assert BranchName(runId) in Run(s, runId, [] + [Outside(Land(i))]).world.branches;
    }
  }

  lemma {:induction false} StaysClean(s: State, runId: string, steps: seq<Step>)
    requires Good(s, BranchName(runId)) && s.delete.Succeeded?
    requires BranchName(runId) !in s.world.branches && NoLateCreate(s.world)
    ensures var t := Run(s, runId, steps);
            t.delete.Succeeded? && BranchName(runId) !in t.world.branches && NoLateCreate(t.world)
  {
    hide BranchName, Next, Good;
    RunKeeps(s, runId, steps);
    if steps != [] {
      var n := |steps| - 1;
      StaysClean(s, runId, steps[..n]);
      RunKeeps(s, runId, steps[..n]);
      StaysCleanNext(Run(s, runId, steps[..n]), runId, steps[n]);
    }
  }

  lemma StaysCleanNext(s: State, runId: string, step: Step)
    requires Good(s, BranchName(runId)) && s.delete.Succeeded?
    requires BranchName(runId) !in s.world.branches && NoLateCreate(s.world)
    ensures var t := Next(s, runId, step);
            t.delete.Succeeded? && BranchName(runId) !in t.world.branches && NoLateCreate(t.world)
  {
    hide BranchName, Diff, OwnOf, Elapse;
    if step.Outside? {
      HappenAddsNoCreate(s.world, step.event, BranchName(runId));
      if step.event.Land? && step.event.i < |s.world.late| {
        assert s.world.late[step.event.i] in s.world.late;
      }
    }
  }

  // ----- the leak -----

  /** The branch exists before the create task succeeded. */
  predicate Taken(s: State, name: string) {
    !s.create.Succeeded? && name in s.world.branches
  }

  lemma TakenNext(s: State, runId: string, step: Step)
    requires Good(s, BranchName(runId)) && Taken(s, BranchName(runId))
    ensures Taken(Next(s, runId, step), BranchName(runId))
    ensures Next(s, runId, step).world.branches[BranchName(runId)] == s.world.branches[BranchName(runId)]
  {
    hide BranchName, Diff, OwnOf;
    if step.Outside? && step.event.Land? && step.event.i < |s.world.late| {
      assert s.world.late[step.event.i] in s.world.late;
    }
  }

  /** Once the branch exists before the create task succeeded, say because the answer to its first
      request was lost, every retry is refused: create never succeeds, no step ever removes the
      branch, the rollback task included, and nothing of this run reaches main. */
  lemma {:induction false} LostCreateLeaks(s: State, runId: string, steps: seq<Step>)
    requires Good(s, BranchName(runId)) && Taken(s, BranchName(runId))
    ensures var t := Run(s, runId, steps);
            && Taken(t, BranchName(runId)) && t.world.xcom == None && OwnOf(t.world.main) == []
            && t.world.branches[BranchName(runId)] == s.world.branches[BranchName(runId)]
  {
    hide BranchName, Next, OwnOf;
    RunKeeps(s, runId, steps);
    if steps != [] {
      var n := |steps| - 1;
      LostCreateLeaks(s, runId, steps[..n]);
      RunKeeps(s, runId, steps[..n]);
      TakenNext(Run(s, runId, steps[..n]), runId, steps[n]);
    }
  }

  lemma RunStep(s: State, runId: string, steps: seq<Step>, step: Step)
    ensures Run(s, runId, steps + [step]) == Next(Run(s, runId, steps), runId, step)
  {
    assert (steps + [step])[..|steps|] == steps;
  }

  /** One lost answer is enough to get there. */
  lemma LostAnswerReachesLeak(main: seq<Commit>, branches: map<string, seq<Commit>>, runId: string)
    requires Untouched(main) && BranchName(runId) !in branches
    ensures var s := Run(Start(main, branches), runId, [Ensure(true), Create(Unanswered), Outside(Land(0))]);
            Good(s, BranchName(runId)) && Taken(s, BranchName(runId)) && s.create == Waiting(1)
  {
    hide BranchName, OwnOf;
    var s := Start(main, branches);
    var e, c, l := Ensure(true), Create(Unanswered), Outside(Land(0));
    assert Good(s, BranchName(runId));
    RunKeeps(s, runId, [e, c, l]);
    RunStep(s, runId, [], e);
    assert [] + [e] == [e];
    RunStep(s, runId, [e], c);
    assert [e] + [c] == [e, c];
    RunStep(s, runId, [e, c], l);
    assert [e, c] + [l] == [e, c, l];
  }

  /** dbt failing for good. */
  const DBT_FAILS := [Dbt(false), Dbt(false), Dbt(false)]

  lemma DbtFailsForGood(s: State, runId: string)
    requires s.create.Succeeded? && s.dbt == Waiting(0)
    ensures Run(s, runId, DBT_FAILS) == s.(dbt := Failed)
  {
    hide BranchName;
    var f := Dbt(false);
    RunStep(s, runId, [], f);
    assert [] + [f] == [f];
    RunStep(s, runId, [f], f);
    assert [f] + [f] == [f, f];
    RunStep(s, runId, [f, f], f);
    assert [f, f] + [f] == DBT_FAILS;
  }

  lemma {:induction false} RunConcat(s: State, runId: string, a: seq<Step>, b: seq<Step>)
    ensures Run(s, runId, a + b) == Run(Run(s, runId, a), runId, b)
  {
    hide Next;
    if b == [] {
      assert a + b == a;
    } else {
      RunConcat(s, runId, a, b[..|b| - 1]);
      assert (a + b)[..|a + b| - 1] == a + b[..|b| - 1];
    }
  }

  /** The second create request served, the first still under way. */
  function CreatedWithOneLate(main: seq<Commit>, branches: map<string, seq<Commit>>, name: string): State {
    State(World(main, branches[name := main], [CreateBranch(name)], Some(name)), 0,
          Succeeded, Succeeded, Waiting(0), Waiting(0), Waiting(0))
  }

  lemma CreatedOnRetry(main: seq<Commit>, branches: map<string, seq<Commit>>, runId: string)
    requires BranchName(runId) !in branches
    ensures Run(Start(main, branches), runId, [Ensure(true), Create(Unanswered), Create(Served)]) ==
            CreatedWithOneLate(main, branches, BranchName(runId))
  {
    hide BranchName;
    var e, c, r, s := Ensure(true), Create(Unanswered), Create(Served), Start(main, branches);
    RunStep(s, runId, [], e);
    assert [] + [e] == [e];
    RunStep(s, runId, [e], c);
    assert [e] + [c] == [e, c];
    RunStep(s, runId, [e, c], r);
    assert [e, c] + [r] == [e, c, r];
  }

  lemma LandsAfterRollback(main: seq<Commit>, branches: map<string, seq<Commit>>, runId: string)
    ensures var s := CreatedWithOneLate(main, branches, BranchName(runId)).(dbt := Failed);
            var t := Run(s, runId, [Delete(Served), Outside(Land(0))]);
            t.delete.Succeeded? && BranchName(runId) in t.world.branches
  {
    hide BranchName, Run, Diff;
    var d, l := Delete(Served), Outside(Land(0));
    var s := CreatedWithOneLate(main, branches, BranchName(runId)).(dbt := Failed);
    var t := Next(s, runId, d);
    assert t.world.late == [CreateBranch(BranchName(runId))] && t.delete.Succeeded?;
    LandsCreate(t, runId, 0);
    RunNothing(s, runId);
    RunStep(s, runId, [], d);
    assert [] + [d] == [d];
    RunStep(s, runId, [d], l);
    assert [d] + [l] == [d, l];
  }

  lemma RunNothing(s: State, runId: string)
    ensures Run(s, runId, []) == s
  {
  }

  lemma LandsCreate(s: State, runId: string, i: nat)
    requires LateRequests(s, BranchName(runId)) && i < |s.world.late| && s.world.late[i].CreateBranch?
    ensures var t := Next(s, runId, Outside(Land(i)));
            t.delete == s.delete && BranchName(runId) in t.world.branches
  {
    hide BranchName, Diff;
  }

  /** The condition is needed: a create request that lands after a finished rollback brings the
      branch back. */
  lemma LateCreateResurrects(main: seq<Commit>, branches: map<string, seq<Commit>>, runId: string)
    requires BranchName(runId) !in branches
    ensures var begin, end := [Ensure(true), Create(Unanswered), Create(Served)], [Delete(Served), Outside(Land(0))];
            var s := Run(Start(main, branches), runId, begin + DBT_FAILS + end);
            s.delete.Succeeded? && BranchName(runId) in s.world.branches
  {
    hide BranchName, Run, Next;
    var begin, end := [Ensure(true), Create(Unanswered), Create(Served)], [Delete(Served), Outside(Land(0))];
    CreatedOnRetry(main, branches, runId);
    DbtFailsForGood(CreatedWithOneLate(main, branches, BranchName(runId)), runId);
    LandsAfterRollback(main, branches, runId);
    RunConcat(Start(main, branches), runId, begin, DBT_FAILS);
    RunConcat(Start(main, branches), runId, begin + DBT_FAILS, end);
  }

  // ----- what a run leaves to others -----

  /** Outside its own waits, a run touches no branch but its own and only appends to main. */
  lemma LeavesOthersAlone(s: State, runId: string, step: Step, other: string)
    requires Good(s, BranchName(runId)) && other != BranchName(runId)
    requires !step.Outside? && (step.Merge? ==> step.meanwhile == [])
    ensures var t := Next(s, runId, step);
            && (other in t.world.branches <==> other in s.world.branches)
            && (other in s.world.branches ==> t.world.branches[other] == s.world.branches[other])
            && s.world.main <= t.world.main
  {
    hide BranchName, Diff, OwnOf;
  }

  // ----- the tasks, spelled out -----

  /** The branch of a run is named after it, each character that may not stand there shown as one
      underscore. */
  lemma BranchNameIs(runId: string)
    ensures var n := BranchName(runId);
            && |n| == 8 + |runId| && n[..8] == "dbt-run-"
            && forall i :: 0 <= i < |runId| ==>
                 n[8 + i] == if Allowed(runId[i]) then runId[i] else '_'
  {
  }

  /** Creating fails exactly when the request is not served or the branch is there. Otherwise the
      branch starts out as main and its name is handed on; nothing else changes. */
  lemma CreateTaskIs(w: World, runId: string, answer: Answer)
    ensures var t, name := CreateTask(w, runId, answer), BranchName(runId);
            && (t.raised <==> !answer.Served? || name in w.branches)
            && (t.raised ==> t.world == if answer.Unanswered? then w.(late := w.late + [CreateBranch(name)]) else w)
            && (!t.raised ==> t.world.xcom == Some(name) && name in t.world.branches
                              && t.world.branches[name] == w.main && t.world.branches - {name} == w.branches
                              && t.world.main == w.main && t.world.late == w.late)
  {
    hide BranchName, Diff;
  }

  /** Deleting fails exactly when there is a name and the request is not served: no name is nothing to
      do, and a missing branch is as good as deleted. */
  lemma DeleteTaskIs(w: World, answer: Answer)
    ensures var t := DeleteTask(w, answer);
            && (t.raised <==> w.xcom.Some? && !answer.Served?)
            && (w.xcom.Some? && answer.Served? ==> t.world == w.(branches := w.branches - {w.xcom.value}))
            && (w.xcom.Some? && answer.Unanswered? ==> t.world == w.(late := w.late + [DeleteBranch(w.xcom.value)]))
            && (w.xcom.None? || answer.Refused? ==> t.world == w)
  {
    hide Diff;
    if w.xcom.Some? && w.xcom.value !in w.branches { assert w.branches - {w.xcom.value} == w.branches; }
  }

  /** Merging fails exactly without a name, a served comparison and a branch to compare, or when there
      is something to publish and, after the wait, its request is not served or the branch is gone.
      When it succeeds main holds every commit the branch has by then, those it lacked appended at its
      end, or, if there was nothing to publish, held them all from the start. */
  lemma MergeTaskIs(w: World, diff: Answer, meanwhile: seq<Event>, post: Answer)
    requires w.xcom.Some?
    ensures var t, name := MergeTask(w, diff, meanwhile, post), w.xcom.value;
            var later := Elapse(w, meanwhile, name);
            if !diff.Served? || name !in w.branches then t.raised && t.world == w
            else if forall c :: c in w.branches[name] ==> c in w.main then !t.raised && t.world == w
            else
              && (t.raised <==> !post.Served? || name !in later.branches)
              && (!t.raised ==> later.main <= t.world.main && t.world == later.(main := t.world.main)
                                && (forall c :: c in t.world.main <==> c in later.main || c in later.branches[name])
                                && (forall c :: c in t.world.main[|later.main|..] ==> c !in later.main))
  {
    hide Elapse;
    var name := w.xcom.value;
    var later := Elapse(w, meanwhile, name);
    if diff.Served? && name in w.branches {
      DiffHolds(w.main, w.branches[name]);
      if name in later.branches { DiffHolds(later.main, later.branches[name]); }
    }
  }

  /** The difference holds what the branch has and main lacks. */
  lemma {:induction false} DiffHolds(main: seq<Commit>, branch: seq<Commit>)
    ensures forall c :: c in Diff(main, branch) <==> c in branch && c !in main
    ensures Diff(main, branch) == [] <==> forall c :: c in branch ==> c in main
  {
    if branch != [] {
      var n := |branch| - 1;
      DiffHolds(main, branch[..n]);
      assert branch == branch[..n] + [branch[n]];
      if branch[n] !in main { assert branch[n] in branch; }
    }
  }

  /** Without a name there is nothing to merge and the task fails. */
  lemma NothingToMerge(w: World, diff: Answer, meanwhile: seq<Event>, post: Answer)
    requires w.xcom.None?
    ensures MergeTask(w, diff, meanwhile, post) == TaskResult(w, true)
  {
  }
}
