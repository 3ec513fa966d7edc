/** Every step of the copy-on-write system keeps its invariant and is, for programs, a
    step of the eager system or no step at all. */
module CowSteps {
  import opened CopyOnWrite

  // ---- what each part of the invariant depends on ----

  lemma SharingFrame(c: Lazy, c': Lazy)
    requires Sharing(c)
    requires forall l :: Plain(c', l) ==> Plain(c, l) && c'.maps[l] == c.maps[l]
    ensures Sharing(c')
  {
  }

  /** A mapping whose frame no other observable mapping has may be anything. */
  lemma SharingFresh(c: Lazy, c': Lazy, l0: Loc)
    requires Sharing(c)
    requires forall l :: Plain(c', l) && l != l0 ==> Plain(c, l) && c'.maps[l] == c.maps[l]
    requires forall l :: Plain(c', l) && l != l0 && l0 in c'.maps ==> c'.maps[l].frame != c'.maps[l0].frame
    ensures Sharing(c')
  {
  }

  lemma PendingFrame(c: Lazy, c': Lazy)
    requires Pending(c)
    requires forall l :: l in c'.pend ==> l in c.pend && l in c'.maps && c'.maps[l] == c.maps[l] && l.env in c'.building
    requires forall l, m :: (l in c'.pend && m in c'.maps && m.vpn != PFTEMP && m != l
                             && l in c'.maps && c'.maps[m].frame == c'.maps[l].frame) ==> ParentOf(c', l, m)
    ensures Pending(c')
  {
    forall l | l in c'.pend ensures OnlyParent(c', l) { }
  }

  lemma HalvesFrame(c: Lazy, c': Lazy)
    requires Halves(c) && c'.pend <= c.pend
    requires forall e :: e in c'.forks ==>
               e in c.forks && c'.forks[e] == c.forks[e] && e !in c'.building && c.forks[e].child in c'.building
    requires forall e :: e in c'.forks && c.forks[e].half ==>
               Loc(e, c.forks[e].at) in c'.maps && (c.forks[e].at != PFTEMP ==> HalfOk(c', e))
    requires forall e, l :: e in c'.forks && l in c'.maps && l.env == c'.forks[e].child ==> l in c.maps
    ensures Halves(c')
  {
    forall e | e in c'.forks ensures ForkOk(c', e) {
      assert ForkOk(c, e);
    }
  }

  lemma HandlingFrame(c: Lazy, c': Lazy)
    requires Handling(c)
    requires forall e :: e in c'.handling ==>
               e in c.handling && c'.handling[e] == c.handling[e] && e in c'.envs && e !in c'.building
    requires forall e :: e in c'.handling ==> HandlerKept(c, c', Loc(e, c.handling[e]), Loc(e, PFTEMP))
    ensures Handling(c')
  {
    forall e | e in c'.handling ensures HandlerOk(c', e, Loc(e, c.handling[e]), Loc(e, PFTEMP)) {
      assert HandlerOk(c, e, Loc(e, c.handling[e]), Loc(e, PFTEMP));
      assert HandlerKept(c, c', Loc(e, c.handling[e]), Loc(e, PFTEMP));
    }
  }

  ghost predicate HandlerKept(c: Lazy, c': Lazy, l: Loc, t: Loc) {
    HandlerView(c, l, t) ==> HandlerView(c', l, t)
  }

  ghost predicate HandlerView(c: Lazy, l: Loc, t: Loc) {
    && Plain(c, l) && c.maps[l].cow && t in c.maps
    && 0 <= c.maps[t].frame < |c.frames| && 0 <= c.maps[l].frame < |c.frames|
    && c.frames[c.maps[t].frame] == c.frames[c.maps[l].frame]
    && Alone(c, t)
  }

  // ---- stores ----

  lemma StoreInv(c: Lazy, e: int, v: int, k: int, x: int)
    requires CowInv(c) && Runs(c, e) && UserPage(v) && Loc(e, v) in c.maps && c.maps[Loc(e, v)].w
    ensures CowInv(StoreS(c, e, v, k, x))
  {
    hide Handling, Pending, Halves, Sharing;
    var c' := StoreS(c, e, v, k, x);
    SharingFrame(c, c');
    StorePending(c, c');
    StoreHalves(c, c');
    StoreHandling(c, c', Loc(e, v));
  }

  lemma StorePending(c: Lazy, c': Lazy)
    requires Pending(c) && c'.maps == c.maps && c'.pend == c.pend && c'.building == c.building && c'.forks == c.forks
    ensures Pending(c')
  {
    forall l, m | l in c.pend && m in c.maps && m.vpn != PFTEMP && m != l && l in c.maps && c.maps[m].frame == c.maps[l].frame
      ensures ParentOf(c', l, m)
    {
      assert OnlyParent(c, l);
    }
    PendingFrame(c, c');
  }

  lemma StoreHalves(c: Lazy, c': Lazy)
    requires Halves(c) && c'.maps == c.maps && c'.pend == c.pend && c'.building == c.building && c'.forks == c.forks
    ensures Halves(c')
  {
    forall e | e in c.forks ensures ForkOk(c', e) {
      assert ForkOk(c, e);
    }
  }

  lemma StoreHandling(c: Lazy, c': Lazy, l0: Loc)
    requires Frames(c) && Handling(c) && Sharing(c) && FlagsOk(c) && Plain(c, l0) && c.maps[l0].w
    requires c'.maps == c.maps && c'.pend == c.pend && c'.handling == c.handling && c'.envs == c.envs && c'.building == c.building
    requires |c'.frames| == |c.frames|
    requires forall f :: 0 <= f < |c.frames| && f != c.maps[l0].frame ==> c'.frames[f] == c.frames[f]
    ensures Handling(c')
  {
    forall e | e in c.handling ensures HandlerKept(c, c', Loc(e, c.handling[e]), Loc(e, PFTEMP)) {
      var l := Loc(e, c.handling[e]);
      assert HandlerOk(c, e, l, Loc(e, PFTEMP));
      assert Plain(c, l) && l != l0;
    }
    HandlingFrame(c, c');
  }

  // ---- changing one mapping ----

  /** `c'` has the mappings of `c` except at `l0`. */
  ghost predicate MapsBut(c: Lazy, c': Lazy, l0: Loc) {
    forall l :: l != l0 ==> (l in c'.maps <==> l in c.maps) && (l in c.maps ==> c'.maps[l] == c.maps[l])
  }

  lemma PendingSet(c: Lazy, c': Lazy, l0: Loc)
    requires Pending(c) && MapsBut(c, c', l0) && c'.pend == c.pend && l0 !in c.pend
    requires forall l :: l in c.pend ==> l.env in c'.building
    requires forall e :: e in c.forks && c.forks[e].half ==> e in c'.forks && c'.forks[e] == c.forks[e]
    requires forall l :: l in c.pend ==> !ParentOf(c, l, l0)
    requires l0 in c'.maps && l0.vpn != PFTEMP ==>
               forall l :: l in c.pend && l in c.maps ==> c.maps[l].frame != c'.maps[l0].frame
    ensures Pending(c')
  {
    forall l, m | l in c.pend && m in c'.maps && m.vpn != PFTEMP && m != l && l in c'.maps && c'.maps[m].frame == c'.maps[l].frame
      ensures ParentOf(c', l, m)
    {
      assert OnlyParent(c, l);
      assert m != l0;
      assert ParentOf(c, l, m);
    }
    PendingFrame(c, c');
  }

  lemma HalvesSet(c: Lazy, c': Lazy, l0: Loc)
    requires Halves(c) && MapsBut(c, c', l0) && c'.pend == c.pend
    requires forall e :: e in c'.forks ==>
               e in c.forks && c'.forks[e] == c.forks[e] && e !in c'.building && c.forks[e].child in c'.building
    requires forall e :: e in c'.forks && c.forks[e].half ==>
               Loc(e, c.forks[e].at) in c'.maps
               && (Loc(e, c.forks[e].at) == l0 && l0.vpn != PFTEMP ==>
                     !c'.maps[l0].share && (c'.maps[l0].w || c'.maps[l0].cow)
                     && Loc(c.forks[e].child, c.forks[e].at) !in c.pend)
               && Loc(c.forks[e].child, c.forks[e].at) != l0
    requires forall e :: e in c'.forks ==> c.forks[e].child != l0.env
    ensures Halves(c')
  {
    forall e | e in c'.forks && c.forks[e].half && c.forks[e].at != PFTEMP ensures HalfOk(c', e) {
      assert ForkOk(c, e) && HalfOk(c, e);
    }
    HalvesFrame(c, c');
  }

  lemma HandlingSet(c: Lazy, c': Lazy, l0: Loc)
    requires Handling(c) && MapsBut(c, c', l0) && c'.pend == c.pend && |c'.frames| == |c.frames|
    requires forall f :: 0 <= f < |c.frames| && !Unused(c, f) ==> c'.frames[f] == c.frames[f]
    requires forall e :: e in c'.handling ==>
               e in c.handling && c'.handling[e] == c.handling[e] && e in c'.envs && e !in c'.building
    requires forall e :: e in c'.handling ==> e != l0.env
    requires l0 in c'.maps ==> forall e :: e in c'.handling && Loc(e, PFTEMP) in c.maps ==>
               c'.maps[l0].frame != c.maps[Loc(e, PFTEMP)].frame
    ensures Handling(c')
  {
    forall e | e in c'.handling ensures HandlerKept(c, c', Loc(e, c.handling[e]), Loc(e, PFTEMP)) {
      assert HandlerOk(c, e, Loc(e, c.handling[e]), Loc(e, PFTEMP));
    }
    HandlingFrame(c, c');
  }

  // ---- the fault handler ----

  lemma CopyInv(c: Lazy, e: int, v: int, f: int)
    requires CowInv(c) && Runs(c, e) && UserPage(v) && Loc(e, v) in c.maps && c.maps[Loc(e, v)].cow && Unused(c, f)
    ensures CowInv(CopyS(c, e, v, f))
  {
    hide Handling, Pending, Halves, Sharing;
    var c' := CopyS(c, e, v, f);
    var t := Loc(e, PFTEMP);
    NotPending(c, t);
    NotPending(c, Loc(e, v));
    SharingFrame(c, c');
    PendingSet(c, c', t);
    CopyHalves(c, c', t);
    var c1 := c'.(handling := c.handling);
    AllHandlers(c);
    HandlingSet(c, c1, t);
    CopyHandling(c1, c', e, v);
  }

  /** Pending pages belong to children that do not run yet and are never scratch pages. */
  lemma NotPending(c: Lazy, l: Loc)
    requires Pending(c)
    ensures l.env !in c.building || l.vpn == PFTEMP ==> l !in c.pend
    ensures forall k :: k in c.pend ==> k.env in c.building && k in c.maps && k.vpn != PFTEMP
  {
  }

  lemma CopyHalves(c: Lazy, c': Lazy, t: Loc)
    requires Halves(c) && MapsBut(c, c', t) && t in c'.maps && t.vpn == PFTEMP && t.env !in c.building
    requires c'.pend == c.pend && c'.forks == c.forks && c'.building == c.building
    ensures Halves(c')
  {
    forall e | e in c.forks && c.forks[e].half
      ensures Loc(e, c.forks[e].at) in c'.maps && Loc(c.forks[e].child, c.forks[e].at) != t
    {
      assert ForkOk(c, e);
    }
    forall e | e in c.forks ensures e !in c.building && c.forks[e].child in c.building { assert ForkOk(c, e); }
    HalvesSet(c, c', t);
  }

  lemma CopyHandling(c: Lazy, c': Lazy, e: int, v: int)
    requires Handling(c) && c' == c.(handling := c.handling[e := v])
    requires HandlerOk(c, e, Loc(e, v), Loc(e, PFTEMP))
    ensures Handling(c')
  {
    forall d | d in c'.handling ensures HandlerOk(c', d, Loc(d, c'.handling[d]), Loc(d, PFTEMP)) {
      assert d != e ==> HandlerOk(c, d, Loc(d, c.handling[d]), Loc(d, PFTEMP));
    }
  }

  lemma RemapInv(c: Lazy, e: int)
    requires CowInv(c) && e in c.handling
    ensures Loc(e, PFTEMP) in c.maps && CowInv(RemapS(c, e))
  {
    hide Handling, Pending, Halves, Sharing;
    HandlerFacts(c, e);
    var c' := RemapS(c, e);
    var l0, t := Loc(e, c.handling[e]), Loc(e, PFTEMP);
    NotPending(c, l0);
    SharingFresh(c, c', l0);
    PendingSet(c, c', l0);
    RemapHalves(c, c', l0);
    AllHandlers(c);
    forall d | d in c'.handling ensures d in c.envs && d !in c.building && c.maps[t].frame != c.maps[Loc(d, PFTEMP)].frame {
      HandlerFacts(c, d);
    }
    HandlingSet(c, c', l0);
  }

  lemma HandlerFacts(c: Lazy, e: int)
    requires Handling(c) && e in c.handling
    ensures HandlerOk(c, e, Loc(e, c.handling[e]), Loc(e, PFTEMP))
  {
  }

  lemma RemapHalves(c: Lazy, c': Lazy, l0: Loc)
    requires Halves(c) && FlagsOk(c) && MapsBut(c, c', l0) && l0 in c.maps && l0 in c'.maps && l0.env !in c.building
    requires c.maps[l0].cow && c'.maps[l0].w && !c'.maps[l0].share
    requires c'.pend == c.pend && c'.forks == c.forks && c'.building == c.building
    ensures Halves(c')
  {
    forall e | e in c.forks ensures e !in c.building && c.forks[e].child in c.building
      ensures c.forks[e].half ==> Loc(e, c.forks[e].at) in c'.maps && Loc(c.forks[e].child, c.forks[e].at) != l0
      ensures c.forks[e].half && Loc(e, c.forks[e].at) == l0 && l0.vpn != PFTEMP ==>
                Loc(c.forks[e].child, c.forks[e].at) !in c.pend
    {
      assert ForkOk(c, e);
    }
    HalvesSet(c, c', l0);
  }

  // ---- allocation, unmapping, exit ----

  lemma AllocInv(c: Lazy, e: int, v: int, f: int, w: bool, s: bool)
    requires CowInv(c) && Runs(c, e) && e !in c.forks && UserPage(v) && Unused(c, f)
    ensures CowInv(AllocS(c, e, v, f, w, s))
  {
    hide Handling, Pending, Halves, Sharing;
    var c' := AllocS(c, e, v, f, w, s);
    var l0 := Loc(e, v);
    NotPending(c, l0);
    SharingFresh(c, c', l0);
    PendingSet(c, c', l0);
    OutsideHalves(c, c', l0);
    AllHandlers(c);
    HandlingSet(c, c', l0);
  }

  lemma AllHandlers(c: Lazy)
    requires Handling(c)
    ensures forall e :: e in c.handling ==> e in c.envs && e !in c.building
    ensures forall e :: e in c.handling ==> Loc(e, PFTEMP) in c.maps
  {
    forall e | e in c.handling ensures e in c.envs && e !in c.building && Loc(e, PFTEMP) in c.maps {
      HandlerFacts(c, e);
    }
  }

  lemma OutsideHalves(c: Lazy, c': Lazy, l0: Loc)
    requires Halves(c) && MapsBut(c, c', l0) && l0.env !in c.forks && l0.env !in c.building
    requires c'.pend == c.pend && c'.forks == c.forks && c'.building == c.building
    ensures Halves(c')
  {
    forall e | e in c.forks ensures e !in c.building && c.forks[e].child in c.building
      ensures c.forks[e].half ==> Loc(e, c.forks[e].at) in c'.maps && Loc(c.forks[e].child, c.forks[e].at) != l0
    {
      assert ForkOk(c, e);
    }
    HalvesSet(c, c', l0);
  }

  lemma DropInv(c: Lazy, e: int, v: int)
    requires CowInv(c) && Runs(c, e) && e !in c.forks && UserPage(v)
    ensures CowInv(DropS(c, e, v))
  {
    hide Handling, Pending, Halves, Sharing;
    var c' := DropS(c, e, v);
    var l0 := Loc(e, v);
    NotPending(c, l0);
    SharingFrame(c, c');
    PendingSet(c, c', l0);
    OutsideHalves(c, c', l0);
    AllHandlers(c);
    HandlingSet(c, c', l0);
  }

  lemma ExitInv(c: Lazy, e: int)
    requires CowInv(c) && e in c.envs && e !in c.building
    ensures CowInv(ExitS(c, e))
  {
    hide Handling, Pending, Halves, Sharing;
    var c' := ExitS(c, e);
    SharingFrame(c, c');
    ExitPending(c, c', e);
    ExitHalves(c, c', e);
    ExitHandling(c, c', e);
  }

  lemma ExitPending(c: Lazy, c': Lazy, e: int)
    requires Pending(c) && e !in c.building && c' == ExitS(c, e)
    ensures Pending(c')
  {
    forall l, m | l in c'.pend && m in c'.maps && m.vpn != PFTEMP && m != l && l in c'.maps
                  && c'.maps[m].frame == c'.maps[l].frame
      ensures ParentOf(c', l, m)
    {
      assert OnlyParent(c, l);
      assert ParentOf(c, l, m);
    }
    PendingFrame(c, c');
  }

  lemma ExitHalves(c: Lazy, c': Lazy, e: int)
    requires Halves(c) && Pending(c) && e !in c.building && c' == ExitS(c, e)
    ensures Halves(c')
  {
    forall d | d in c'.forks
      ensures d !in c.building && c.forks[d].child in c.building
      ensures c.forks[d].half ==> Loc(d, c.forks[d].at) in c'.maps && (c.forks[d].at != PFTEMP ==> HalfOk(c', d))
    {
      assert ForkOk(c, d);
      if c.forks[d].half && c.forks[d].at != PFTEMP { assert HalfOk(c, d); }
    }
    HalvesFrame(c, c');
  }

  lemma ExitHandling(c: Lazy, c': Lazy, e: int)
    requires Handling(c) && c' == ExitS(c, e)
    ensures Handling(c')
  {
    forall d | d in c'.handling
      ensures d in c'.envs && d !in c'.building && HandlerKept(c, c', Loc(d, c.handling[d]), Loc(d, PFTEMP))
    {
      HandlerFacts(c, d);
    }
    HandlingFrame(c, c');
  }

  // ---- fork ----

  lemma StartInv(c: Lazy, e: int, ch: int)
    requires CowInv(c) && Runs(c, e) && e !in c.forks && ch !in c.envs
    ensures CowInv(StartS(c, e, ch))
  {
    hide Handling, Pending, Halves, Sharing;
    var c' := StartS(c, e, ch);
    SharingFrame(c, c');
    StartPending(c, c', e, ch);
    StartHalves(c, c', e, ch);
    StartHandling(c, c', ch);
  }

  lemma StartPending(c: Lazy, c': Lazy, e: int, ch: int)
    requires Pending(c) && e !in c.forks && c' == StartS(c, e, ch)
    ensures Pending(c')
  {
    forall l, m | l in c'.pend && m in c'.maps && m.vpn != PFTEMP && m != l && l in c'.maps
                  && c'.maps[m].frame == c'.maps[l].frame
      ensures ParentOf(c', l, m)
    {
      assert OnlyParent(c, l);
      assert ParentOf(c, l, m);
    }
    PendingFrame(c, c');
  }

  lemma StartHalves(c: Lazy, c': Lazy, e: int, ch: int)
    requires Halves(c) && Pending(c) && Domains(c) && e !in c.forks && e in c.envs && e !in c.building
             && ch !in c.envs && c' == StartS(c, e, ch)
    ensures Halves(c')
  {
    forall d | d in c'.forks ensures ForkOk(c', d) {
      if d == e {
        assert forall l :: l in c.pend ==> l.env in c.building;
      } else {
        assert ForkOk(c, d);
        if c.forks[d].half && c.forks[d].at != PFTEMP { assert HalfOk(c, d); }
      }
    }
    forall d | d in c.forks ensures c.forks[d].child != ch { assert ForkOk(c, d); }
  }

  lemma StartHandling(c: Lazy, c': Lazy, ch: int)
    requires Handling(c) && Domains(c) && ch !in c.envs
    requires c'.maps == c.maps && c'.pend == c.pend && c'.frames == c.frames && c'.handling == c.handling
    requires c'.envs == c.envs + {ch} && c'.building == c.building + {ch}
    ensures Handling(c')
  {
    AllHandlers(c);
    forall d | d in c'.handling
      ensures HandlerKept(c, c', Loc(d, c.handling[d]), Loc(d, PFTEMP))
    {
    }
    HandlingFrame(c, c');
  }

  /** The pages of a child that is not half way through one are all settled. */
  lemma ForkFacts(c: Lazy, e: int)
    requires Halves(c) && e in c.forks
    ensures ForkOk(c, e) && e != c.forks[e].child
    ensures forall l :: l in c.pend && l.env == c.forks[e].child ==> c.forks[e].half && l.vpn == c.forks[e].at
    ensures !c.forks[e].half ==> Loc(c.forks[e].child, c.forks[e].at) !in c.maps
  {
  }

  lemma SkipInv(c: Lazy, e: int)
    requires CowInv(c) && e in c.forks && !c.forks[e].half && c.forks[e].at < UXSTACK
    ensures CowInv(SkipS(c, e))
  {
    hide Handling, Pending, Halves, Sharing;
    var c' := SkipS(c, e);
    SharingFrame(c, c');
    SkipPending(c, c', e);
    SkipHalves(c, c', e);
    StoreLikeHandling(c, c');
  }

  lemma SkipPending(c: Lazy, c': Lazy, e: int)
    requires Pending(c) && e in c.forks && !c.forks[e].half && c' == SkipS(c, e)
    ensures Pending(c')
  {
    forall l, m | l in c'.pend && m in c'.maps && m.vpn != PFTEMP && m != l && l in c'.maps
                  && c'.maps[m].frame == c'.maps[l].frame
      ensures ParentOf(c', l, m)
    {
      assert OnlyParent(c, l);
      assert ParentOf(c, l, m);
    }
    PendingFrame(c, c');
  }

  lemma SkipHalves(c: Lazy, c': Lazy, e: int)
    requires Halves(c) && e in c.forks && !c.forks[e].half && c.forks[e].at < UXSTACK && c' == SkipS(c, e)
    ensures Halves(c')
  {
    forall d | d in c'.forks ensures ForkOk(c', d) {
      assert ForkOk(c, d);
      if d != e && c.forks[d].half && c.forks[d].at != PFTEMP { assert HalfOk(c, d); }
    }
  }

  lemma StoreLikeHandling(c: Lazy, c': Lazy)
    requires Handling(c) && c'.maps == c.maps && c'.pend == c.pend && c'.frames == c.frames && c'.handling == c.handling
    requires c'.envs == c.envs && c'.building == c.building
    ensures Handling(c')
  {
    AllHandlers(c);
    forall d | d in c'.handling ensures HandlerKept(c, c', Loc(d, c.handling[d]), Loc(d, PFTEMP)) { }
    HandlingFrame(c, c');
  }

  /** A second mapping of the same frame with the same PTE_SHARE bit, neither writable. */
  lemma SharingClone(c: Lazy, c': Lazy, from: Loc, to: Loc)
    requires Sharing(c) && Plain(c, from) && from != to
    requires forall l :: Plain(c', l) && l != to ==> Plain(c, l) && c'.maps[l] == c.maps[l]
    requires Plain(c', to) ==>
               c'.maps[to].frame == c.maps[from].frame && c'.maps[to].share == c.maps[from].share
               && (!c.maps[from].share ==> !c.maps[from].w && !c'.maps[to].w)
    ensures Sharing(c')
  {
  }

  /** Mapping a page into a child that is being built: everything but Pending. */
  lemma IntoChild(c: Lazy, c': Lazy, e: int)
    requires Handling(c) && Halves(c) && e in c.forks && e !in c.handling && Loc(e, c.forks[e].at) in c.maps
    requires MapsBut(c, c', Loc(c.forks[e].child, c.forks[e].at)) && c'.frames == c.frames
    requires Loc(c.forks[e].child, c.forks[e].at) in c'.maps
    requires c'.maps[Loc(c.forks[e].child, c.forks[e].at)].frame == c.maps[Loc(e, c.forks[e].at)].frame
    requires c'.envs == c.envs && c'.building == c.building && c'.handling == c.handling
    requires forall l: Loc :: l.env != c.forks[e].child ==> (l in c'.pend <==> l in c.pend)
    ensures Handling(c')
  {
    ForkFacts(c, e);
    AllHandlers(c);
    var to := Loc(c.forks[e].child, c.forks[e].at);
    forall d | d in c'.handling ensures HandlerKept(c, c', Loc(d, c.handling[d]), Loc(d, PFTEMP)) {
      HandlerFacts(c, d);
      assert Loc(d, PFTEMP) != to && Loc(e, c.forks[e].at) != Loc(d, PFTEMP);
    }
    HandlingFrame(c, c');
  }

  lemma DupWholeInv(c: Lazy, e: int)
    requires CowInv(c) && Runs(c, e) && e in c.forks && !c.forks[e].half && c.forks[e].at < UXSTACK
    requires Loc(e, c.forks[e].at) in c.maps && !MakesCow(c.maps[Loc(e, c.forks[e].at)])
    ensures CowInv(DupWholeS(c, e))
  {
    hide Handling, Pending, Halves, Sharing;
    var c' := DupWholeS(c, e);
    var from, to := Loc(e, c.forks[e].at), Loc(c.forks[e].child, c.forks[e].at);
    ForkFacts(c, e);
    NotPending(c, from);
    if from.vpn == PFTEMP {
      SharingFrame(c, c');
    } else {
      SharingClone(c, c', from, to);
    }
    DupWholePending(c, c', e);
    DupWholeHalves(c, c', e);
    IntoChild(c, c', e);
  }

  lemma DupWholePending(c: Lazy, c': Lazy, e: int)
    requires Pending(c) && Halves(c) && e in c.forks && !c.forks[e].half && Loc(e, c.forks[e].at) in c.maps
             && c' == DupWholeS(c, e)
    ensures Pending(c')
  {
    var from, to := Loc(e, c.forks[e].at), Loc(c.forks[e].child, c.forks[e].at);
    ForkFacts(c, e);
    NotPending(c, from);
    forall l, m | l in c'.pend && m in c'.maps && m.vpn != PFTEMP && m != l && l in c'.maps
                  && c'.maps[m].frame == c'.maps[l].frame
      ensures ParentOf(c', l, m)
    {
      assert OnlyParent(c, l);
      assert m != to;
      assert ParentOf(c, l, m);
    }
    PendingFrame(c, c');
  }

  lemma DupWholeHalves(c: Lazy, c': Lazy, e: int)
    requires Halves(c) && e in c.forks && !c.forks[e].half && c.forks[e].at < UXSTACK
             && Loc(e, c.forks[e].at) in c.maps && c' == DupWholeS(c, e)
    ensures Halves(c')
  {
    ForkFacts(c, e);
    forall d | d in c'.forks ensures ForkOk(c', d) {
      assert ForkOk(c, d);
      if d != e && c.forks[d].half && c.forks[d].at != PFTEMP { assert HalfOk(c, d); }
    }
  }

  lemma DupHalfInv(c: Lazy, e: int)
    requires CowInv(c) && Runs(c, e) && e in c.forks && !c.forks[e].half && c.forks[e].at < UXSTACK
    requires Loc(e, c.forks[e].at) in c.maps && MakesCow(c.maps[Loc(e, c.forks[e].at)])
    ensures CowInv(DupHalfS(c, e))
  {
    hide Handling, Pending, Halves, Sharing;
    var c' := DupHalfS(c, e);
    var from, to := Loc(e, c.forks[e].at), Loc(c.forks[e].child, c.forks[e].at);
    ForkFacts(c, e);
    NotPending(c, from);
    if from.vpn == PFTEMP || c.maps[from].w {
      SharingFrame(c, c');
    } else {
      SharingClone(c, c', from, to);
    }
    DupHalfPending(c, c', e);
    DupHalfHalves(c, c', e);
    IntoChild(c, c', e);
  }

  lemma DupHalfPending(c: Lazy, c': Lazy, e: int)
    requires Pending(c) && Halves(c) && Sharing(c) && e in c.forks && !c.forks[e].half && Loc(e, c.forks[e].at) in c.maps
    requires MakesCow(c.maps[Loc(e, c.forks[e].at)]) && c' == DupHalfS(c, e)
    ensures Pending(c')
  {
    var from, to := Loc(e, c.forks[e].at), Loc(c.forks[e].child, c.forks[e].at);
    ForkFacts(c, e);
    NotPending(c, from);
    forall l | l in c.pend ensures OnlyParent(c', l) {
      assert OnlyParent(c, l);
      assert c.maps[from].frame == c.maps[l].frame && from.vpn != PFTEMP ==> ParentOf(c, l, from);
      forall m | m in c'.maps && m.vpn != PFTEMP && m != l && c'.maps[m].frame == c'.maps[l].frame ensures ParentOf(c', l, m) {
        assert ParentOf(c, l, m);
      }
    }
    if to in c'.pend {
      forall m | m in c'.maps && m.vpn != PFTEMP && m != to && c'.maps[m].frame == c'.maps[to].frame ensures ParentOf(c', to, m) {
        assert m == from;
      }
    }
  }

  lemma DupHalfHalves(c: Lazy, c': Lazy, e: int)
    requires Halves(c) && Pending(c) && e in c.forks && !c.forks[e].half && c.forks[e].at < UXSTACK
             && Loc(e, c.forks[e].at) in c.maps
    requires MakesCow(c.maps[Loc(e, c.forks[e].at)]) && c' == DupHalfS(c, e)
    ensures Halves(c')
  {
    ForkFacts(c, e);
    NotPending(c, Loc(e, c.forks[e].at));
    forall d | d in c'.forks ensures ForkOk(c', d) {
      assert ForkOk(c, d);
      if d != e && c.forks[d].half && c.forks[d].at != PFTEMP { assert HalfOk(c, d); }
    }
  }

  lemma DupSelfInv(c: Lazy, e: int)
    requires CowInv(c) && Runs(c, e) && e in c.forks && c.forks[e].half
    ensures Loc(e, c.forks[e].at) in c.maps && CowInv(DupSelfS(c, e))
  {
    hide Handling, Pending, Halves, Sharing;
    ForkFacts(c, e);
    NotPending(c, Loc(e, c.forks[e].at));
    var c' := DupSelfS(c, e);
    DupSelfSharing(c, c', e);
    DupSelfPending(c, c', e);
    DupSelfHalves(c, c', e);
    DupSelfHandling(c, c', e);
  }

  lemma DupSelfSharing(c: Lazy, c': Lazy, e: int)
    requires Sharing(c) && FlagsOk(c) && Pending(c) && Halves(c)
    requires e in c.forks && c.forks[e].half && Loc(e, c.forks[e].at) in c.maps && c' == DupSelfS(c, e)
    ensures Sharing(c')
  {
    var l, to := Loc(e, c.forks[e].at), Loc(c.forks[e].child, c.forks[e].at);
    ForkFacts(c, e);
    if l.vpn == PFTEMP {
      NotPending(c, to);
      SharingFrame(c, c');
    } else {
      assert HalfOk(c, e);
      if to in c.pend {
        assert OnlyParent(c, to);
        forall m | Plain(c', m) && m != l && m != to ensures c.maps[m].frame != c.maps[l].frame {
          assert c.maps[m].frame == c.maps[to].frame ==> ParentOf(c, to, m);
        }
      }
    }
  }

  lemma DupSelfPending(c: Lazy, c': Lazy, e: int)
    requires Pending(c) && Halves(c) && e in c.forks && c.forks[e].half && Loc(e, c.forks[e].at) in c.maps
    requires c' == DupSelfS(c, e)
    ensures Pending(c')
  {
    var l0, to := Loc(e, c.forks[e].at), Loc(c.forks[e].child, c.forks[e].at);
    ForkFacts(c, e);
    NotPending(c, l0);
    forall l, m | l in c'.pend && m in c'.maps && m.vpn != PFTEMP && m != l && l in c'.maps
                  && c'.maps[m].frame == c'.maps[l].frame
      ensures ParentOf(c', l, m)
    {
      assert OnlyParent(c, l);
      assert ParentOf(c, l, m);
      assert l != to && m.env != e;
      if m.env in c.forks { ForkFacts(c, m.env); }
    }
    PendingFrame(c, c');
  }

  lemma DupSelfHalves(c: Lazy, c': Lazy, e: int)
    requires Halves(c) && Pending(c) && e in c.forks && c.forks[e].half && Loc(e, c.forks[e].at) in c.maps
    requires c' == DupSelfS(c, e)
    ensures Halves(c')
  {
    ForkFacts(c, e);
    forall d | d in c'.forks ensures ForkOk(c', d) {
      assert ForkOk(c, d);
      if d != e && c.forks[d].half && c.forks[d].at != PFTEMP { assert HalfOk(c, d); }
    }
  }

  lemma DupSelfHandling(c: Lazy, c': Lazy, e: int)
    requires Handling(c) && Halves(c) && e in c.forks && e !in c.handling && Loc(e, c.forks[e].at) in c.maps
    requires c' == DupSelfS(c, e)
    ensures Handling(c')
  {
    AllHandlers(c);
    ForkFacts(c, e);
    forall d | d in c'.handling ensures HandlerKept(c, c', Loc(d, c.handling[d]), Loc(d, PFTEMP)) {
      HandlerFacts(c, d);
    }
    HandlingFrame(c, c');
  }

  lemma FinishInv(c: Lazy, e: int, f: int)
    requires CowInv(c) && e in c.forks && !c.forks[e].half && c.forks[e].at == UXSTACK && Unused(c, f)
    ensures CowInv(FinishS(c, e, f))
  {
    hide Handling, Pending, Halves, Sharing;
    var c' := FinishS(c, e, f);
    var l0 := Loc(c.forks[e].child, UXSTACK);
    ForkFacts(c, e);
    NotPending(c, l0);
    SharingFresh(c, c', l0);
    FinishNoParent(c, l0);
    PendingSet(c, c', l0);
    FinishHalves(c, c', e);
    AllHandlers(c);
    HandlingSet(c, c', l0);
  }

  lemma FinishNoParent(c: Lazy, l0: Loc)
    requires Halves(c) && l0.env in c.building
    ensures forall l :: l in c.pend ==> !ParentOf(c, l, l0)
  {
    if l0.env in c.forks { ForkFacts(c, l0.env); }
  }

  lemma FinishHalves(c: Lazy, c': Lazy, e: int)
    requires Halves(c) && e in c.forks && !c.forks[e].half && c'.pend == c.pend
    requires MapsBut(c, c', Loc(c.forks[e].child, UXSTACK)) && c'.forks == c.forks - {e}
             && c'.building == c.building - {c.forks[e].child}
    ensures Halves(c')
  {
    ForkFacts(c, e);
    forall d | d in c'.forks
      ensures d !in c'.building && c.forks[d].child in c'.building
      ensures c.forks[d].half ==> Loc(d, c.forks[d].at) in c'.maps && Loc(d, c.forks[d].at) != Loc(c.forks[e].child, UXSTACK)
      ensures c.forks[d].child != c.forks[e].child
    {
      assert ForkOk(c, d);
    }
    HalvesSet(c, c', Loc(c.forks[e].child, UXSTACK));
  }
}
