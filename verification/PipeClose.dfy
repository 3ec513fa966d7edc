/** End-of-pipe detection (lab/lib/pipe.c, lab/lib/fd.c): _pipeisclosed compares page
    reference counts while other environments on the same CPU duplicate, inherit, close and
    lose descriptors one system call at a time. */
module PipeClose {

  datatype End = ReadEnd | WriteEnd

  /** A descriptor slot of an environment. */
  datatype Slot = Slot(env: int, fd: int)

  /** The checking environment's place in the loop of _pipeisclosed, with what it has
      loaded so far. */
  datatype Check =
    | Start
    | GotRuns(n: nat)
    | GotFd(n: nat, fdRef: nat)
    | GotBoth(n: nat, fdRef: nat, dataRef: nat)
    | Answer(closed: bool)

  /** `data` are the slots that have the data page mapped, `fds` those that have the
      descriptor page of an end. `me` is the checking environment, which holds a descriptor
      of end `mine`; `cur` the environment the CPU runs, `runs` how often `me` has been
      switched to. */
  datatype State = State(data: set<Slot>, fds: map<Slot, End>, me: int, mine: End, cur: int, runs: nat, check: Check)

  datatype Act =
    | Switch(env: int)                         // env_run: a context switch, maybe to the same
    | DupData(from: Slot, to: Slot)            // dup: map the data page first
    | DupFd(from: Slot, to: Slot)              // dup: then the descriptor page
    | ForkFd(from: Slot, to: Slot)             // fork: the descriptor page has the lower address
    | ForkData(from: Slot, to: Slot)           // fork: then the data page
    | CloseFd(slot: Slot)                      // close: unmap the descriptor page first
    | CloseData(slot: Slot)                    // close: then the data page
    | Destroy(env: int)                        // env_free unmaps everything at once
    | LoadRuns | LoadFdRef | LoadDataRef | Compare

  // ---- reference counts ----

  ghost function Ends(s: State, e: End): set<Slot> {
    set d | d in s.fds && s.fds[d] == e
  }

  /** pp_ref of the descriptor page of end `e`. */
  ghost function FdRef(s: State, e: End): nat {
    |Ends(s, e)|
  }

  /** pp_ref of the data page. */
  ghost function DataRef(s: State): nat {
    |s.data|
  }

  function Other(e: End): End {
    if e == ReadEnd then WriteEnd else ReadEnd
  }

  /** Slots between the two calls of a dup or a close: the data page alone. */
  ghost function Halves(s: State): set<Slot> {
    s.data - s.fds.Keys
  }

  /** Slots between the two calls of a fork: the descriptor page alone. */
  ghost function Unbacked(s: State): set<Slot> {
    s.fds.Keys - s.data
  }

  /** What the comparison of _pipeisclosed really tells: that the other end's descriptors and
      the half-made or half-closed ones are as many as the half-inherited. */
  lemma CountsAddUp(s: State)
    ensures FdRef(s, s.mine) + FdRef(s, Other(s.mine)) + |Halves(s)| == DataRef(s) + |Unbacked(s)|
    ensures FdRef(s, s.mine) == DataRef(s) <==> FdRef(s, Other(s.mine)) + |Halves(s)| == |Unbacked(s)|
  {
    var r, w := Ends(s, s.mine), Ends(s, Other(s.mine));
    assert s.fds.Keys == r + w && r !! w;
    assert s.fds.Keys + Halves(s) == s.data + Unbacked(s);
    assert s.fds.Keys !! Halves(s) && s.data !! Unbacked(s);
  }

  // ---- steps ----

  /** Steps of user code are taken by the environment the CPU runs; the checking
      environment does nothing else while it checks. */
  ghost predicate Enabled(s: State, a: Act) {
    match a
    case Switch(_) => true
    case DupData(from, to) => Idle(s) && s.cur == from.env == to.env && from in s.data && to !in s.data && to !in s.fds
    case DupFd(from, to) => Idle(s) && s.cur == from.env == to.env && from in s.fds && to in s.data && to !in s.fds
    case ForkFd(from, to) => Idle(s) && s.cur == from.env != to.env && from in s.fds && to !in s.data && to !in s.fds
    case ForkData(from, to) => Idle(s) && s.cur == from.env != to.env && from in s.data && to !in s.data && to in s.fds
    case CloseFd(d) => Idle(s) && s.cur == d.env && d in s.fds
    case CloseData(d) => Idle(s) && s.cur == d.env && d in s.data && d !in s.fds
    case Destroy(e) => e != s.me && (s.cur != s.me || s.check.Start? || s.check.Answer?)
    case LoadRuns => s.cur == s.me && (s.check.Start? || s.check.Answer?)
    case LoadFdRef => s.cur == s.me && s.check.GotRuns?
    case LoadDataRef => s.cur == s.me && s.check.GotFd?
    case Compare => s.cur == s.me && s.check.GotBoth?
  }

  predicate Idle(s: State) {
    s.cur == s.me ==> s.check.Start? || s.check.Answer?
  }

  ghost function Step(s: State, a: Act): State
    requires Enabled(s, a)
  {
    match a
    case Switch(e) => s.(cur := e, runs := if e == s.me then s.runs + 1 else s.runs)
    case DupData(_, to) => Stale(s.(data := s.data + {to}))
    case DupFd(from, to) => Stale(s.(fds := s.fds[to := s.fds[from]]))
    case ForkFd(from, to) => Stale(s.(fds := s.fds[to := s.fds[from]]))
    case ForkData(_, to) => Stale(s.(data := s.data + {to}))
    case CloseFd(d) => Stale(s.(fds := s.fds - {d}))
    case CloseData(d) => Stale(s.(data := s.data - {d}))
    case Destroy(e) =>
      Stale(s.(data := (set d | d in s.data && d.env != e), fds := map d | d in s.fds && d.env != e :: s.fds[d]))
    case LoadRuns => s.(check := GotRuns(s.runs))
    case LoadFdRef => s.(check := GotFd(s.check.n, FdRef(s, s.mine)))
    case LoadDataRef => s.(check := GotBoth(s.check.n, s.check.fdRef, DataRef(s)))
    case Compare =>
      if s.runs == s.check.n then s.(check := Answer(s.check.fdRef == s.check.dataRef)) else s.(check := Start)
  }

  /** An answer is about the moment it is given; once mappings change it is past. */
  function Stale(s: State): State {
    if s.check.Answer? then s.(check := Start) else s
  }

  /** The two steps of a dup, taken in turn, give the new slot both pages of the old one. */
  lemma DupIsCopy(s: State, from: Slot, to: Slot)
    requires s.cur == from.env == to.env && Idle(s) && from in s.fds && from in s.data && to !in s.fds && to !in s.data
    ensures Enabled(s, DupData(from, to)) && Enabled(Step(s, DupData(from, to)), DupFd(from, to))
    ensures var s' := Step(Step(s, DupData(from, to)), DupFd(from, to));
            to in s'.fds && s'.fds[to] == s.fds[from] && s'.fds == s.fds[to := s.fds[from]] && s'.data == s.data + {to}
  {
  }

  /** The two steps of a close take both pages away from the slot, and from no other. */
  lemma CloseIsGone(s: State, d: Slot)
    requires s.cur == d.env && Idle(s) && d in s.fds && d in s.data
    ensures Enabled(s, CloseFd(d)) && Enabled(Step(s, CloseFd(d)), CloseData(d))
    ensures var s' := Step(Step(s, CloseFd(d)), CloseData(d)); s'.fds == s.fds - {d} && s'.data == s.data - {d}
  {
  }

  // ---- the invariant ----

  /** While the checker has not been switched away from since it read env_runs, what it
      has loaded is still true. */
  ghost predicate Fresh(s: State) {
    match s.check
    case Start => true
    case GotRuns(n) => n <= s.runs
    case GotFd(n, f) => n <= s.runs && (s.cur == s.me && n == s.runs ==> f == FdRef(s, s.mine))
    case GotBoth(n, f, d) => n <= s.runs && (s.cur == s.me && n == s.runs ==> f == FdRef(s, s.mine) && d == DataRef(s))
    case Answer(closed) => closed == (FdRef(s, s.mine) == DataRef(s))
  }

  lemma StepFresh(s: State, a: Act)
    requires Fresh(s) && Enabled(s, a)
    ensures Fresh(Step(s, a))
  {
    var s' := Step(s, a);
    if s'.fds == s.fds {
      assert forall e :: Ends(s', e) == Ends(s, e);
    }
  }

  ghost predicate Reaches(s: State, acts: seq<Act>, s': State)
    decreases |acts|
  {
    if acts == [] then s' == s
    else Enabled(s, acts[0]) && Reaches(Step(s, acts[0]), acts[1..], s')
  }

  /** Dup and close take care of the order: a slot with the descriptor page has the data
      page. */
  lemma StepBacked(s: State, a: Act)
    requires Unbacked(s) == {} && Enabled(s, a) && !a.ForkFd?
    ensures Unbacked(Step(s, a)) == {}
  {
    var s' := Step(s, a);
    forall d | d in s'.fds ensures d in s'.data {
      assert d in s.fds ==> d !in Unbacked(s);
    }
  }

  /** In every interleaving of dups, closes and exits: every mapped descriptor has its data
      page; when _pipeisclosed answers true, no descriptor of the other end is mapped
      anywhere; and when no dup or close is under way, it answers true exactly if there is
      none. */
  lemma {:induction false} ClosedIsSafe(s: State, acts: seq<Act>, s': State)
    requires Fresh(s) && Unbacked(s) == {} && Reaches(s, acts, s') && forall i :: 0 <= i < |acts| ==> !acts[i].ForkFd?
    ensures Fresh(s') && Unbacked(s') == {}
    ensures s'.check == Answer(true) ==> FdRef(s', Other(s'.mine)) == 0
    ensures s'.check.Answer? && Halves(s') == {} ==> (s'.check.closed <==> FdRef(s', Other(s'.mine)) == 0)
    decreases |acts|
  {
    if acts == [] {
      CountsAddUp(s);
    } else {
      StepFresh(s, acts[0]);
      StepBacked(s, acts[0]);
      ClosedIsSafe(Step(s, acts[0]), acts[1..], s');
    }
  }

  // ---- fork ----

  /** In every interleaving, forks included: the answer is "closed" exactly if the
      half-inherited descriptors make up for the open ones of the other end. */
  lemma {:induction false} AnswerMeans(s: State, acts: seq<Act>, s': State)
    requires Fresh(s) && Reaches(s, acts, s')
    ensures Fresh(s')
    ensures s'.check.Answer? ==> (s'.check.closed <==> FdRef(s', Other(s'.mine)) + |Halves(s')| == |Unbacked(s')|)
    decreases |acts|
  {
    if acts == [] {
      CountsAddUp(s);
    } else {
      StepFresh(s, acts[0]);
      AnswerMeans(Step(s, acts[0]), acts[1..], s');
    }
  }

  const CHECK: seq<Act> := [LoadRuns, LoadFdRef, LoadDataRef, Compare]

  /** A check that is not interrupted answers with the comparison. */
  lemma Uninterrupted(s: State)
    requires s.cur == s.me && s.check.Start?
    ensures Reaches(s, CHECK, s.(check := Answer(FdRef(s, s.mine) == DataRef(s))))
  {
    hide FdRef, DataRef;
    var f, d, s' := FdRef(s, s.mine), DataRef(s), s.(check := Answer(FdRef(s, s.mine) == DataRef(s)));
    SameCounts(s, s.(check := GotRuns(s.runs)));
    SameCounts(s, s.(check := GotFd(s.runs, f)));
    Prepend(s.(check := GotBoth(s.runs, f, d)), CHECK, 3, s');
    Prepend(s.(check := GotFd(s.runs, f)), CHECK, 2, s');
    Prepend(s.(check := GotRuns(s.runs)), CHECK, 1, s');
    Prepend(s, CHECK, 0, s');
    assert CHECK[0..] == CHECK;
  }

  lemma SameCounts(s: State, s': State)
    requires s'.data == s.data && s'.fds == s.fds
    ensures DataRef(s') == DataRef(s) && forall e :: FdRef(s', e) == FdRef(s, e)
  {
    assert forall e :: Ends(s', e) == Ends(s, e);
  }

  lemma Prepend(s: State, acts: seq<Act>, i: nat, s': State)
    requires i < |acts| && Enabled(s, acts[i]) && Reaches(Step(s, acts[i]), acts[i + 1..], s')
    ensures Reaches(s, acts[i..], s')
  {
    assert acts[i..][1..] == acts[i + 1..];
  }

  /** Environment 1 reads; environment 2 has both ends and is about to fork. */
  ghost function BeforeFork(): State {
    State({Slot(1, 0), Slot(2, 0), Slot(2, 1)},
          map[Slot(1, 0) := ReadEnd, Slot(2, 0) := ReadEnd, Slot(2, 1) := WriteEnd],
          1, ReadEnd, 2, 0, Start)
  }

  /** Fork, interrupted after it has mapped both descriptor pages for child 3. */
  const HALFFORK: seq<Act> := [ForkFd(Slot(2, 0), Slot(3, 0)), ForkFd(Slot(2, 1), Slot(3, 1)), Switch(1)]

  ghost function HalfForked(): State {
    State({Slot(1, 0), Slot(2, 0), Slot(2, 1)},
          map[Slot(1, 0) := ReadEnd, Slot(2, 0) := ReadEnd, Slot(2, 1) := WriteEnd,
              Slot(3, 0) := ReadEnd, Slot(3, 1) := WriteEnd],
          1, ReadEnd, 1, 1, Start)
  }

  lemma HalfForkedReached()
    ensures Reaches(BeforeFork(), HALFFORK, HalfForked())
  {
    var s0, s' := BeforeFork(), HalfForked();
    var s1 := Step(s0, HALFFORK[0]);
    Prepend(Step(s1, HALFFORK[1]), HALFFORK, 2, s');
    Prepend(s1, HALFFORK, 1, s');
    Prepend(s0, HALFFORK, 0, s');
    assert HALFFORK[0..] == HALFFORK;
  }

  /** If the reader checks now, it is told that the pipe is closed while two descriptors of
      the write end are open. */
  lemma ForkMisleads()
    ensures Fresh(BeforeFork()) && Unbacked(BeforeFork()) == {} && Reaches(BeforeFork(), HALFFORK, HalfForked())
    ensures Reaches(HalfForked(), CHECK, HalfForked().(check := Answer(true)))
    ensures FdRef(HalfForked(), WriteEnd) == 2
  {
    HalfForkedReached();
    var s := HalfForked();
    assert Ends(s, ReadEnd) == {Slot(1, 0), Slot(2, 0), Slot(3, 0)};
    assert Ends(s, WriteEnd) == {Slot(2, 1), Slot(3, 1)};
    Uninterrupted(s);
  }
}
