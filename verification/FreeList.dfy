/** Singly linked free lists threaded through an array by index, as the kernel keeps
    them for pages (pp_link) and for environments (env_link). */
module FreeList {
  import opened Basics

  ghost predicate NoDup(s: seq<int>) {
    forall i, j :: 0 <= i < j < |s| ==> s[i] != s[j]
  }

  /** The list's successor of position `i`; position -1 stands for the head pointer. */
  ghost function Next(free: seq<int>, i: int): int
    requires -1 <= i < |free|
  {
    if i + 1 < |free| then free[i + 1] else NONE
  }

  /** Following `link` from `head` visits the elements of `free`, once each, and ends. */
  ghost predicate Chain(link: seq<int>, head: int, free: seq<int>) {
    && NoDup(free)
    && (forall i :: 0 <= i < |free| ==> 0 <= free[i] < |link|)
    && head == Next(free, -1)
    && (forall i :: 0 <= i < |free| ==> link[free[i]] == Next(free, i))
  }

  lemma ChainHead(link: seq<int>, head: int, free: seq<int>)
    requires Chain(link, head, free)
    ensures head == NONE <==> free == []
    ensures free != [] ==> head == free[0] && 0 <= head < |link|
    ensures NoDup(free)
  {
  }

  /** Unlinking the head; the link of the element taken may then be set at will. */
  lemma ChainPop(link: seq<int>, head: int, free: seq<int>, l: int)
    requires Chain(link, head, free) && free != []
    ensures 0 <= head < |link|
    ensures Chain(link[head := l], link[head], free[1..]) && Chain(link, link[head], free[1..])
  {
    var link', free' := link[head := l], free[1..];
    forall i | 0 <= i < |free'|
      ensures 0 <= free'[i] < |link| && link'[free'[i]] == link[free'[i]] == Next(free', i)
    {
      assert free'[i] == free[i + 1] && free[i + 1] != free[0];
      assert link[free[i + 1]] == Next(free, i + 1);
    }
    assert link[free[0]] == Next(free, 0);
    ChainIntro(link', link[head], free');
    ChainIntro(link, link[head], free');
  }

  lemma ChainPush(link: seq<int>, head: int, free: seq<int>, p: nat)
    requires Chain(link, head, free) && p < |link| && p !in free
    ensures Chain(link[p := head], p, [p] + free)
  {
    var link', free' := link[p := head], [p] + free;
    forall i | 0 <= i < |free'| ensures link'[free'[i]] == Next(free', i) {
      if i > 0 {
        assert free'[i] == free[i - 1];
        assert link[free[i - 1]] == Next(free, i - 1);
      }
    }
  }

  lemma ChainIntro(link: seq<int>, head: int, free: seq<int>)
    requires NoDup(free) && (forall i :: 0 <= i < |free| ==> 0 <= free[i] < |link|)
    requires head == Next(free, -1)
    requires forall i :: 0 <= i < |free| ==> link[free[i]] == Next(free, i)
    ensures Chain(link, head, free)
  {
  }

  /** The links determine the list: no two lists hang off one head. */
  lemma {:induction false} ChainUnique(link: seq<int>, head: int, a: seq<int>, b: seq<int>)
    requires Chain(link, head, a) && Chain(link, head, b)
    ensures a == b
    decreases |a|
  {
    if a == [] {
    } else {
      ChainPop(link, head, a, NONE);
      ChainPop(link, head, b, NONE);
      ChainUnique(link, link[head], a[1..], b[1..]);
      assert a == [a[0]] + a[1..] && b == [b[0]] + b[1..];
    }
  }
}
