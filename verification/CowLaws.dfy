/** What programs find in memory (lab/lib/fork.c), said word by word: at each address the
    value last stored there, through forks, faults and remaps. */
module CowLaws {
  import opened Basics
  import opened Paging
  import opened CopyOnWrite
  import opened CowSteps
  import opened CowRefinement

  /** The word a program should find at word `k` of a page. */
  type Words = (Loc, int) -> int

  /** Two addresses of one page: the same address, or two PTE_SHARE mappings of a frame. */
  ghost predicate OnePage(c: Lazy, l: Loc, m: Loc) {
    || l == m
    || (l in c.maps && m in c.maps && c.maps[l].share && c.maps[m].share && c.maps[l].frame == c.maps[m].frame)
  }

  /** What an operation does to the words programs should find. A store sets one word of one
      page, for all who share it; a new page holds zeros; and the child of a fork starts with
      what its parent has when the page is duplicated, or, if the parent could still write
      it then, when the parent's mapping follows. */
  ghost function Follow(c: Lazy, words: Words, op: Op): Words {
    match op
    case Store(e, v, k, x) => (l, j) => if j == k && OnePage(c, l, Loc(e, v)) then x else words(l, j)
    case Alloc(e, v, _, _, _) => (l, j) => if l == Loc(e, v) then 0 else words(l, j)
    case Finish(e, _) => (l, j) => if e in c.forks && l == Loc(c.forks[e].child, UXSTACK) then 0 else words(l, j)
    case Dup(e) =>
      (l, j) => if e in c.forks && l == Loc(c.forks[e].child, c.forks[e].at) then words(Loc(e, l.vpn), j) else words(l, j)
    case DupSelf(e) =>
      (l, j) => if e in c.forks && l == Loc(c.forks[e].child, c.forks[e].at) && l in c.pend
                then words(Loc(e, l.vpn), j) else words(l, j)
    case _ => words
  }

  ghost function FollowAll(c: Lazy, words: Words, ops: seq<Op>): Words
    requires CowInv(c) && Runnable(c, ops)
    decreases |ops|
  {
    if ops == [] then words
    else StepInv(c, ops[0]); FollowAll(Step(c, ops[0]), Follow(c, words, ops[0]), ops[1..])
  }

  /** Frames are whole pages, and every page programs can see holds these words. */
  ghost predicate Holds(c: Lazy, words: Words)
    requires Frames(c)
  {
    && (forall f :: 0 <= f < |c.frames| ==> |c.frames[f]| == NPTENTRIES)
    && (forall l, k :: Plain(c, l) && 0 <= k < NPTENTRIES ==> c.frames[c.maps[l].frame][k] == words(l, k))
  }

  /** Mappings and contents of all visible pages but `l0` are as they were. */
  lemma OthersHold(c: Lazy, c': Lazy, words: Words, words': Words, l0: Loc)
    requires Frames(c) && Frames(c') && Holds(c, words)
    requires forall f :: 0 <= f < |c'.frames| ==> |c'.frames[f]| == NPTENTRIES
    requires forall l :: Plain(c', l) && l != l0 ==> Plain(c, l) && c'.frames[c'.maps[l].frame] == c.frames[c.maps[l].frame]
    requires forall l, k :: l != l0 ==> words'(l, k) == words(l, k)
    requires Plain(c', l0) ==> forall k :: 0 <= k < NPTENTRIES ==> c'.frames[c'.maps[l0].frame][k] == words'(l0, k)
    ensures Holds(c', words')
  {
  }

  lemma StoreHolds(c: Lazy, words: Words, e: int, v: int, k: int, x: int)
    requires CowInv(c) && Enabled(c, Store(e, v, k, x)) && Holds(c, words)
    ensures Frames(Step(c, Store(e, v, k, x)))
    ensures Holds(Step(c, Store(e, v, k, x)), Follow(c, words, Store(e, v, k, x)))
  {
    var l0 := Loc(e, v);
    NotPending(c, l0);
    var c', f := StoreS(c, e, v, k, x), c.maps[l0].frame;
    forall l, j | Plain(c', l) && 0 <= j < NPTENTRIES
      ensures c'.frames[c'.maps[l].frame][j] == Follow(c, words, Store(e, v, k, x))(l, j)
    {
      assert Plain(c, l) && c.frames[c.maps[l].frame][j] == words(l, j);
      assert OnePage(c, l, l0) <==> c.maps[l].frame == f;
    }
  }

  lemma CopyHolds(c: Lazy, words: Words, e: int, v: int, f: int)
    requires CowInv(c) && Enabled(c, Copy(e, v, f)) && Holds(c, words)
    ensures Frames(Step(c, Copy(e, v, f))) && Holds(Step(c, Copy(e, v, f)), words)
  {
    OthersHold(c, Step(c, Copy(e, v, f)), words, words, Loc(e, PFTEMP));
  }

  lemma RemapHolds(c: Lazy, words: Words, e: int)
    requires CowInv(c) && Enabled(c, Remap(e)) && Holds(c, words)
    ensures Frames(Step(c, Remap(e))) && Holds(Step(c, Remap(e)), words)
  {
    HandlerFacts(c, e);
    var l := Loc(e, c.handling[e]);
    assert HandlerOk(c, e, l, Loc(e, PFTEMP));
    OthersHold(c, Step(c, Remap(e)), words, words, l);
  }

  lemma DupHolds(c: Lazy, words: Words, e: int)
    requires CowInv(c) && Enabled(c, Dup(e)) && Holds(c, words)
    ensures Frames(Step(c, Dup(e))) && Holds(Step(c, Dup(e)), Follow(c, words, Dup(e)))
  {
    var at := c.forks[e].at;
    ForkFacts(c, e);
    NotPending(c, Loc(e, at));
    OthersHold(c, Step(c, Dup(e)), words, Follow(c, words, Dup(e)), Loc(c.forks[e].child, at));
  }

  lemma DupSelfHolds(c: Lazy, words: Words, e: int)
    requires CowInv(c) && Enabled(c, DupSelf(e)) && Holds(c, words)
    ensures Frames(Step(c, DupSelf(e))) && Holds(Step(c, DupSelf(e)), Follow(c, words, DupSelf(e)))
  {
    var at := c.forks[e].at;
    HalfMapped(c, e);
    ForkFacts(c, e);
    NotPending(c, Loc(e, at));
    var to := Loc(c.forks[e].child, at);
    assert to in c.pend ==> HalfOk(c, e);
    OthersHold(c, Step(c, DupSelf(e)), words, Follow(c, words, DupSelf(e)), to);
  }

  lemma NewHolds(c: Lazy, words: Words, op: Op)
    requires CowInv(c) && Enabled(c, op) && Holds(c, words) && (op.Alloc? || op.Finish?)
    ensures Frames(Step(c, op)) && Holds(Step(c, op), Follow(c, words, op))
  {
    var l0 := if op.Alloc? then Loc(op.env, op.vpn) else Loc(c.forks[op.env].child, UXSTACK);
    OthersHold(c, Step(c, op), words, Follow(c, words, op), l0);
  }

  lemma StepHolds(c: Lazy, words: Words, op: Op)
    requires CowInv(c) && Enabled(c, op) && Holds(c, words)
    ensures Frames(Step(c, op)) && Holds(Step(c, op), Follow(c, words, op))
  {
    hide Holds, CowInv, Follow;
    match op {
      case Store(e, v, k, x) => StoreHolds(c, words, e, v, k, x);
      case Copy(e, v, f) => CopyHolds(c, words, e, v, f); SameWords(c, words, op);
      case Remap(e) => RemapHolds(c, words, e); SameWords(c, words, op);
      case Dup(e) => DupHolds(c, words, e);
      case DupSelf(e) => DupSelfHolds(c, words, e);
      case Alloc(_, _, _, _, _) => NewHolds(c, words, op);
      case Finish(_, _) => NewHolds(c, words, op);
      case _ => LessHolds(c, words, op);
    }
  }

  lemma SameWords(c: Lazy, words: Words, op: Op)
    requires op.Copy? || op.Remap? || op.Start? || op.Drop? || op.Exit?
    ensures Follow(c, words, op) == words
  {
  }

  /** Starting a fork and taking pages away store nothing. */
  lemma LessHolds(c: Lazy, words: Words, op: Op)
    requires CowInv(c) && Enabled(c, op) && Holds(c, words) && (op.Start? || op.Drop? || op.Exit?)
    ensures Frames(Step(c, op)) && Holds(Step(c, op), Follow(c, words, op))
  {
  }

  /** A new page is there, zeroed, writable and shared just as asked for. */
  lemma AllocGives(c: Lazy, e: int, v: int, f: int, w: bool, s: bool)
    requires CowInv(c) && Enabled(c, Alloc(e, v, f, w, s))
    ensures var c' := Step(c, Alloc(e, v, f, w, s));
            && Frames(c') && Plain(c', Loc(e, v))
            && c'.maps[Loc(e, v)].w == w && c'.maps[Loc(e, v)].share == s && !c'.maps[Loc(e, v)].cow
            && forall k :: 0 <= k < |c'.frames[c'.maps[Loc(e, v)].frame]| ==> c'.frames[c'.maps[Loc(e, v)].frame][k] == 0
  {
    NotPending(c, Loc(e, v));
  }

  /** Taking a page away, and an exit, leave exactly the other pages. */
  lemma LessIsGone(c: Lazy, op: Op, l: Loc)
    requires CowInv(c) && Enabled(c, op) && (op.Drop? || op.Exit?)
    ensures var c' := Step(c, op);
            Plain(c', l) <==> Plain(c, l) && !(l.env == op.env && (op.Drop? ==> l.vpn == op.vpn))
    ensures var c' := Step(c, op); Plain(c', l) ==> c'.maps[l] == c.maps[l]
  {
  }

  /** In every run of forks, stores, faults, allocations and exits, every page a program can
      see holds at each word the value last stored there. */
  lemma {:induction false} PagesHoldLastStore(c: Lazy, words: Words, ops: seq<Op>)
    requires CowInv(c) && Frames(c) && Holds(c, words) && Runnable(c, ops)
    ensures Frames(RunLazy(c, ops)) && Holds(RunLazy(c, ops), FollowAll(c, words, ops))
    decreases |ops|
  {
    hide Holds, Follow, Step, Enabled;
    if ops == [] {
    } else {
      StepInv(c, ops[0]);
      StepHolds(c, words, ops[0]);
      PagesHoldLastStore(Step(c, ops[0]), Follow(c, words, ops[0]), ops[1..]);
    }
  }
}
