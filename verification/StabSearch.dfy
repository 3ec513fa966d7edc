/** The binary search over typed debugging entries (lab/kern/kdebug.c). */
module StabSearch {
  import opened Basics

  datatype Stab = Stab(ntype: int, value: nat)

  ghost predicate Match(stabs: seq<Stab>, i: int, ty: int) {
    0 <= i < |stabs| && stabs[i].ntype == ty
  }

  /** Entries of type `ty` in [left, right] lie at increasing addresses. */
  ghost predicate Increasing(stabs: seq<Stab>, left: int, right: int, ty: int) {
    forall i, j :: left <= i < j <= right && Match(stabs, i, ty) && Match(stabs, j, ty) ==> stabs[i].value < stabs[j].value
  }

  /** All entries of type `ty` in [lo, hi] are at or below `addr`. */
  ghost predicate AllBelow(stabs: seq<Stab>, lo: int, hi: int, ty: int, addr: int) {
    forall i :: lo <= i <= hi && Match(stabs, i, ty) ==> stabs[i].value <= addr
  }

  ghost predicate AllAbove(stabs: seq<Stab>, lo: int, hi: int, ty: int, addr: int) {
    forall i :: lo <= i <= hi && Match(stabs, i, ty) ==> stabs[i].value > addr
  }

  ghost predicate NoMatch(stabs: seq<Stab>, lo: int, hi: int, ty: int) {
    forall i :: lo <= i <= hi ==> !Match(stabs, i, ty)
  }

  /** The last entry of type `ty` in [lo, from], or lo - 1 (or `from`, if below it). */
  method ScanDown(stabs: seq<Stab>, lo: int, from: int, ty: int) returns (m: int)
    requires 0 <= lo && from < |stabs|
    ensures if from < lo then m == from else lo - 1 <= m <= from
    ensures NoMatch(stabs, m + 1, from, ty)
    ensures m >= lo ==> Match(stabs, m, ty)
  {
    m := from;
    while m >= lo && stabs[m].ntype != ty
      invariant if from < lo then m == from else lo - 1 <= m <= from
      invariant NoMatch(stabs, m + 1, from, ty)
    {
      m := m - 1;
    }
  }

  /** Part way through the search: entries before `l` are at or below the address, those
      after `r` above it, and `rl` is the last entry before `l`, if there is one. */
  ghost predicate Searching(stabs: seq<Stab>, left: int, right: int, ty: int, addr: nat, l: int, r: int, rl: int,
                            hit: bool, any: bool) {
    && left <= l <= r + 1 <= right + 1 && left <= rl <= right + 1
    && AllBelow(stabs, left, l - 1, ty, addr) && AllAbove(stabs, r + 1, right, ty, addr)
    && (r < right ==> Match(stabs, r + 1, ty))
    && (hit ==> left <= rl <= r && Match(stabs, rl, ty) && Hit(stabs, left, right, ty, addr))
    && NoMatch(stabs, rl + 1, l - 1, ty)
    && ((left <= rl <= r && Match(stabs, rl, ty) && stabs[rl].value <= addr)
        || (rl == left && NoMatch(stabs, left, l - 1, ty) && !hit))
    && (any <==> hit || !NoMatch(stabs, left, l - 1, ty) || r < right)
  }

  ghost predicate Hit(stabs: seq<Stab>, left: int, right: int, ty: int, addr: nat) {
    exists i :: left <= i <= right && Match(stabs, i, ty) && stabs[i].value == addr
  }

  /** Looking at the entry `m`, the last of its type in [l, mid]. */
  ghost predicate LookingAt(stabs: seq<Stab>, l: int, mid: int, r: int, m: int, ty: int) {
    0 <= l <= mid <= r && l - 1 <= m <= mid && NoMatch(stabs, m + 1, mid, ty) && (m >= l ==> Match(stabs, m, ty))
  }

  lemma SearchSkip(stabs: seq<Stab>, left: int, right: int, ty: int, addr: nat, l: int, r: int, rl: int, hit: bool,
      any: bool, mid: int)
    requires Searching(stabs, left, right, ty, addr, l, r, rl, hit, any) && LookingAt(stabs, l, mid, r, l - 1, ty)
    ensures Searching(stabs, left, right, ty, addr, mid + 1, r, rl, hit, any)
  {
  }

  lemma SearchRight(stabs: seq<Stab>, left: int, right: int, ty: int, addr: nat, l: int, r: int, rl: int, hit: bool,
      any: bool, mid: int, m: int)
    requires right < |stabs| && Increasing(stabs, left, right, ty)
    requires Searching(stabs, left, right, ty, addr, l, r, rl, hit, any) && LookingAt(stabs, l, mid, r, m, ty) && m >= l
    requires stabs[m].value <= addr
    ensures Searching(stabs, left, right, ty, addr, mid + 1, r, m, hit, true)
  {
    assert !NoMatch(stabs, left, mid, ty);
  }

  lemma SearchLeft(stabs: seq<Stab>, left: int, right: int, ty: int, addr: nat, l: int, r: int, rl: int, hit: bool,
      any: bool, mid: int, m: int)
    requires right < |stabs| && Increasing(stabs, left, right, ty)
    requires Searching(stabs, left, right, ty, addr, l, r, rl, hit, any) && LookingAt(stabs, l, mid, r, m, ty) && m >= l
    requires stabs[m].value > addr
    ensures Searching(stabs, left, right, ty, addr, l, m - 1, rl, hit, true)
  {
    assert rl < m || (rl == left && NoMatch(stabs, left, l - 1, ty));
  }

  /** An exact match, the first at `key` itself, a later one at the raised address. */
  lemma SearchHit(stabs: seq<Stab>, left: int, right: int, ty: int, key: nat, l: int, r: int, rl: int, hit: bool,
      any: bool, mid: int, m: int)
    requires right < |stabs| && Increasing(stabs, left, right, ty)
    requires Searching(stabs, left, right, ty, key, l, r, rl, hit, any) && LookingAt(stabs, l, mid, r, m, ty) && m >= l
    requires stabs[m].value == if hit then key + 1 else key
    ensures Searching(stabs, left, right, ty, stabs[m].value, m, r, m, true, true)
  {
    assert Hit(stabs, left, right, ty, stabs[m].value);
  }

  // ---- the raised address ----

  /** The last entry of type `ty` in [lo, from], lo - 1 when there is none. */
  ghost function LastMatch(stabs: seq<Stab>, lo: int, from: int, ty: int): (m: int)
    ensures m <= from || m == lo - 1
    decreases from - lo + 1
  {
    if from < lo then lo - 1 else if Match(stabs, from, ty) then from else LastMatch(stabs, lo, from - 1, ty)
  }

  lemma {:induction false} LastMatchIs(stabs: seq<Stab>, l: int, mid: int, r: int, m: int, ty: int)
    requires LookingAt(stabs, l, mid, r, m, ty)
    ensures LastMatch(stabs, l, mid, ty) == m
    decreases mid - l
  {
    if m == mid || l == mid {
    } else {
      assert !Match(stabs, mid, ty);
      LastMatchIs(stabs, l, mid - 1, r, m, ty);
    }
  }

  /** The first entry at `addr` or at `addr + 1` that halving [l, r] comes upon; -1 when
      there is neither. */
  ghost function Landing(stabs: seq<Stab>, l: int, r: int, ty: int, addr: int): int
    decreases r - l + 1
  {
    if l > r then -1
    else
      var mid := (l + r) / 2;
      var m := LastMatch(stabs, l, mid, ty);
      if m < l || !Match(stabs, m, ty) || stabs[m].value < addr then Landing(stabs, mid + 1, r, ty, addr)
      else if stabs[m].value > addr + 1 then Landing(stabs, l, m - 1, ty, addr)
      else m
  }

  ghost predicate At(stabs: seq<Stab>, left: int, right: int, ty: int, i: int, addr: int) {
    left <= i <= right && Match(stabs, i, ty) && stabs[i].value == addr
  }

  /** Entry `i` starts one byte after `addr`. */
  ghost predicate JustAfter(stabs: seq<Stab>, left: int, right: int, ty: int, i: int, addr: int) {
    At(stabs, left, right, ty, i, addr + 1)
  }

  /** One entry starts at `addr`, the next starts one byte after it, and halving comes
      upon the former first. */
  ghost predicate Misled(stabs: seq<Stab>, left: int, right: int, ty: int, addr: int) {
    && At(stabs, left, right, ty, Landing(stabs, left, right, ty, addr), addr)
    && exists i :: JustAfter(stabs, left, right, ty, i, addr)
  }

  /** What the search for `addr` has come upon when it has narrowed to [l, r]: neither
      neighbour yet; the entry at `addr`; or first the one at `addr + 1`. */
  ghost predicate Stage(stabs: seq<Stab>, left: int, right: int, ty: int, addr: nat, l: int, r: int, key: nat, hit: bool) {
    var first := Landing(stabs, left, right, ty, addr);
    if key > addr then Misled(stabs, left, right, ty, addr)
    else
      && key == addr
      && ((!hit && Landing(stabs, l, r, ty, addr) == first
           && forall i :: At(stabs, left, right, ty, i, addr) || JustAfter(stabs, left, right, ty, i, addr) ==> l <= i <= r)
          || (hit && At(stabs, left, right, ty, first, addr)
             && forall i :: JustAfter(stabs, left, right, ty, i, addr) ==> l <= i <= r)
          || (JustAfter(stabs, left, right, ty, first, addr) && forall i :: JustAfter(stabs, left, right, ty, i, addr) ==> i > r))
  }

  lemma StageSkip(stabs: seq<Stab>, left: int, right: int, ty: int, addr: nat, l: int, r: int, key: nat, hit: bool, mid: int)
    requires Stage(stabs, left, right, ty, addr, l, r, key, hit) && mid == (l + r) / 2 && LookingAt(stabs, l, mid, r, l - 1, ty)
    ensures Stage(stabs, left, right, ty, addr, mid + 1, r, key, hit)
  {
    LastMatchIs(stabs, l, mid, r, l - 1, ty);
  }

  lemma StageRight(stabs: seq<Stab>, left: int, right: int, ty: int, addr: nat, l: int, r: int, key: nat, hit: bool,
      mid: int, m: int)
    requires Stage(stabs, left, right, ty, addr, l, r, key, hit) && mid == (l + r) / 2
             && LookingAt(stabs, l, mid, r, m, ty) && m >= l
    requires 0 <= left <= l && r <= right < |stabs| && Increasing(stabs, left, right, ty)
    requires stabs[m].value < if hit then key + 1 else key
    ensures Stage(stabs, left, right, ty, addr, mid + 1, r, key, hit)
  {
    hide LastMatch, Increasing;
    LastMatchIs(stabs, l, mid, r, m, ty);
    forall i, a | At(stabs, left, right, ty, i, a) && stabs[m].value < a && l <= i ensures i > mid {
      Above(stabs, left, right, ty, m, i);
    }
  }

  /** Of two entries the one at the higher address comes later. */
  lemma Above(stabs: seq<Stab>, left: int, right: int, ty: int, m: int, i: int)
    requires 0 <= left && right < |stabs| && Increasing(stabs, left, right, ty)
    requires left <= m <= right && left <= i <= right && Match(stabs, m, ty) && Match(stabs, i, ty)
    ensures stabs[m].value < stabs[i].value <==> m < i
  {
  }

  lemma StageLeft(stabs: seq<Stab>, left: int, right: int, ty: int, addr: nat, l: int, r: int, key: nat, hit: bool,
      mid: int, m: int)
    requires Stage(stabs, left, right, ty, addr, l, r, key, hit) && mid == (l + r) / 2
             && LookingAt(stabs, l, mid, r, m, ty) && m >= l
    requires 0 <= left <= l && r <= right < |stabs| && Increasing(stabs, left, right, ty)
    requires stabs[m].value > if hit then key + 1 else key
    ensures Stage(stabs, left, right, ty, addr, l, m - 1, key, hit)
  {
    hide LastMatch, Increasing;
    LastMatchIs(stabs, l, mid, r, m, ty);
    forall i, a | At(stabs, left, right, ty, i, a) && a <= stabs[m].value ensures if a < stabs[m].value then i < m else i == m {
      Above(stabs, left, right, ty, m, i);
      Above(stabs, left, right, ty, i, m);
    }
  }

  lemma StageHit(stabs: seq<Stab>, left: int, right: int, ty: int, addr: nat, l: int, r: int, key: nat, hit: bool,
      mid: int, m: int)
    requires Stage(stabs, left, right, ty, addr, l, r, key, hit) && mid == (l + r) / 2
             && LookingAt(stabs, l, mid, r, m, ty) && m >= l
    requires 0 <= left <= l && r <= right < |stabs| && Increasing(stabs, left, right, ty) && addr <= key
    requires stabs[m].value == if hit then key + 1 else key
    ensures Stage(stabs, left, right, ty, addr, m, r, stabs[m].value, true)
  {
    hide LastMatch, Increasing;
    LastMatchIs(stabs, l, mid, r, m, ty);
    forall i, a | At(stabs, left, right, ty, i, a) && a >= stabs[m].value ensures i >= m {
      Above(stabs, left, right, ty, i, m);
    }
    if key == addr {
      assert if hit then JustAfter(stabs, left, right, ty, m, addr) else At(stabs, left, right, ty, m, addr);
    }
  }

  lemma StageEnd(stabs: seq<Stab>, left: int, right: int, ty: int, addr: nat, l: int, r: int, key: nat, hit: bool)
    requires Stage(stabs, left, right, ty, addr, l, r, key, hit) && l > r
    ensures key > addr <==> Misled(stabs, left, right, ty, addr)
  {
  }

  // ---- the search ----

  /** The answer for address `key`: with no entry of the type, an empty region. Otherwise
      the region ends just before the first entry above `key`, or at the right end; it
      starts at the last entry at or below `key`, or where the search began. */
  ghost predicate Brackets(stabs: seq<Stab>, left: int, right: int, ty: int, key: int, rl: int, rr: int) {
    if NoMatch(stabs, left, right, ty) then rl == left && rr == left - 1
    else
      && AllBelow(stabs, left, rr, ty, key) && AllAbove(stabs, rr + 1, right, ty, key)
      && left - 1 <= rr <= right && (rr < right ==> Match(stabs, rr + 1, ty))
      && if AllAbove(stabs, left, right, ty, key) then rl == if rr < left then rr else left
         else left <= rl <= rr && Match(stabs, rl, ty) && stabs[rl].value <= key && NoMatch(stabs, rl + 1, rr, ty)
  }

  /** Narrows [left, right] around `addr`. The answer is right exactly when the search is
      not misled by an entry one byte further; a left end above the right one is reported
      only when there is no entry of the type at all. */
  method StabBinsearch(stabs: seq<Stab>, left: int, right: int, ty: int, addr: nat) returns (rl: int, rr: int)
    requires 0 <= left <= right + 1 && right < |stabs| && Increasing(stabs, left, right, ty)
    ensures Brackets(stabs, left, right, ty, addr, rl, rr) <==> !Misled(stabs, left, right, ty, addr)
    ensures exists key :: addr <= key && Brackets(stabs, left, right, ty, key, rl, rr)
    ensures rl > rr <==> NoMatch(stabs, left, right, ty)
  {
    hide Searching, Stage, Misled, Increasing, AllAbove, AllBelow;
    var l, r, a := left, right, addr;
    var any := false;
    rl, rr := left, right;
    ghost var key, hit := addr, false;         // the address last hit, or `addr` before any hit
    SearchStart(stabs, left, right, ty, addr);
    assert Stage(stabs, left, right, ty, addr, l, r, key, hit) by { StageStart(stabs, left, right, ty, addr); }
    while l <= r
      invariant rr == r && a == (if hit then key + 1 else key) && left <= l && r <= right && addr <= key
      invariant Searching(stabs, left, right, ty, key, l, r, rl, hit, any)
      invariant Stage(stabs, left, right, ty, addr, l, r, key, hit)
      invariant key > addr ==> hit
      decreases r - l, l < |stabs| && stabs[l].value == a
    {
      var mid := (l + r) / 2;
      var m := ScanDown(stabs, l, mid, ty);
      if m < l {
        SearchSkip(stabs, left, right, ty, key, l, r, rl, hit, any, mid);
        StageSkip(stabs, left, right, ty, addr, l, r, key, hit, mid);
        l := mid + 1;
        continue;
      }
      ghost var was := any;
      any := true;
      if stabs[m].value < a {
        SearchRight(stabs, left, right, ty, key, l, r, rl, hit, was, mid, m);
        StageRight(stabs, left, right, ty, addr, l, r, key, hit, mid, m);
        rl := m;
        l := mid + 1;
      } else if stabs[m].value > a {
        SearchLeft(stabs, left, right, ty, key, l, r, rl, hit, was, mid, m);
        StageLeft(stabs, left, right, ty, addr, l, r, key, hit, mid, m);
        rr := m - 1;
        r := m - 1;
      } else {
        SearchHit(stabs, left, right, ty, key, l, r, rl, hit, was, mid, m);
        StageHit(stabs, left, right, ty, addr, l, r, key, hit, mid, m);
        rl := m;
        l := m;
        a := a + 1;
        key, hit := stabs[m].value, true;
      }
    }
    SearchEnd(stabs, left, right, ty, key, l, r, rl, hit, any);
    StageEnd(stabs, left, right, ty, addr, l, r, key, hit);
    if !any {
      rr := rl - 1;
    } else {
      rl := ScanDown(stabs, rl + 1, rr, ty);
    }
    assert Brackets(stabs, left, right, ty, key, rl, rr);
    BracketsOnlyKey(stabs, left, right, ty, addr, key, rl, rr);
  }

  /** A region that starts at an entry above `addr` is no answer for `addr`. */
  lemma BracketsOnlyKey(stabs: seq<Stab>, left: int, right: int, ty: int, addr: nat, key: nat, rl: int, rr: int)
    requires right < |stabs| && 0 <= left && Increasing(stabs, left, right, ty) && Brackets(stabs, left, right, ty, key, rl, rr)
    requires addr <= key && (key > addr ==> Hit(stabs, left, right, ty, key) && Misled(stabs, left, right, ty, addr))
    ensures Brackets(stabs, left, right, ty, addr, rl, rr) <==> key == addr
  {
    if key > addr {
      var i :| left <= i <= right && Match(stabs, i, ty) && stabs[i].value == key;
      var e := Landing(stabs, left, right, ty, addr);
      assert At(stabs, left, right, ty, e, addr);
      assert i <= rr && rl >= i;
    }
  }

  /** A right answer starts at the last entry at or below the address and covers exactly the
      entries up to the next of the type. */
  lemma LastAtOrBelow(stabs: seq<Stab>, left: int, right: int, ty: int, key: int, rl: int, rr: int, i: int)
    requires 0 <= left <= i <= right < |stabs| && Brackets(stabs, left, right, ty, key, rl, rr)
    requires stabs[i].ntype == ty && stabs[i].value <= key
    requires forall j :: i < j <= right && stabs[j].ntype == ty ==> stabs[j].value > key
    ensures rl == i <= rr && (forall j :: i < j <= rr ==> stabs[j].ntype != ty)
    ensures rr == right || stabs[rr + 1].ntype == ty
  {
    assert Match(stabs, i, ty);
    forall j | left <= j <= right && Match(stabs, j, ty) && j > i ensures stabs[j].value > key {
    }
  }

  /** An entry one byte after another is the only thing that misleads the search. */
  lemma NoNeighbourNotMisled(stabs: seq<Stab>, left: int, right: int, ty: int, addr: nat)
    requires forall i, j :: !(At(stabs, left, right, ty, i, addr) && JustAfter(stabs, left, right, ty, j, addr))
    ensures !Misled(stabs, left, right, ty, addr)
  {
  }

  /** It does happen: of two entries at 5 and 6, the search for 5 gives the second. */
  lemma MisledExample()
    ensures var stabs := [Stab(1, 5), Stab(1, 6)];
            Increasing(stabs, 0, 1, 1) && Misled(stabs, 0, 1, 1, 5)
  {
    var stabs := [Stab(1, 5), Stab(1, 6)];
    assert LastMatch(stabs, 0, 0, 1) == 0;
    assert Landing(stabs, 0, 1, 1, 5) == 0;
    assert JustAfter(stabs, 0, 1, 1, 1, 5);
  }

  lemma SearchStart(stabs: seq<Stab>, left: int, right: int, ty: int, addr: nat)
    requires 0 <= left <= right + 1
    ensures Searching(stabs, left, right, ty, addr, left, right, left, false, false)
  {
  }

  lemma StageStart(stabs: seq<Stab>, left: int, right: int, ty: int, addr: nat)
    ensures Stage(stabs, left, right, ty, addr, left, right, addr, false)
  {
  }

  lemma SearchEnd(stabs: seq<Stab>, left: int, right: int, ty: int, addr: nat, l: int, r: int, rl: int, hit: bool, any: bool)
    requires Searching(stabs, left, right, ty, addr, l, r, rl, hit, any) && l > r && right < |stabs| && 0 <= left
    ensures any <==> !NoMatch(stabs, left, right, ty)
    ensures !any ==> rl == left
    ensures hit ==> Hit(stabs, left, right, ty, addr)
    ensures left <= rl && AllBelow(stabs, left, r, ty, addr) && AllAbove(stabs, r + 1, right, ty, addr)
    ensures left - 1 <= r <= right && (r < right ==> Match(stabs, r + 1, ty)) && NoMatch(stabs, rl + 1, r, ty)
    ensures any && !AllAbove(stabs, left, right, ty, addr) ==>
              rl <= r && Match(stabs, rl, ty) && stabs[rl].value <= addr
    ensures any && AllAbove(stabs, left, right, ty, addr) ==> rl == left
  {
    if hit || r < right {
      assert !NoMatch(stabs, left, right, ty);
    }
  }
}
