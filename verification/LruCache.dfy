/** A shard of the LRU cache (util/cache.cc).  Handles are numbers; what the fields
    of a handle hold is kept in maps. */
module LruCache {
  import opened Keys
  import opened LruList
  import opened HandleTable

  /** The list heads. */
  const LRU: nat := 0
  const IN_USE: nat := 1

  ghost function Elems(list: seq<nat>): set<nat> {
    set e | e in list
  }

  function Sum(charge: map<nat, nat>, list: seq<nat>): nat
    requires forall e :: e in list ==> e in charge
  {
    if list == [] then 0 else Sum(charge, list[..|list| - 1]) + charge[list[|list| - 1]]
  }

  /** The list without e. */
  function RemoveFrom(list: seq<nat>, e: nat): seq<nat> {
    if list == [] then []
    else RemoveFrom(list[..|list| - 1], e) + if list[|list| - 1] == e then [] else [list[|list| - 1]]
  }

  lemma {:induction false} RemoveFromElems(list: seq<nat>, e: nat)
    ensures forall d :: d in RemoveFrom(list, e) <==> d in list && d != e
    ensures e !in list ==> RemoveFrom(list, e) == list
  {
    if list != [] {
      var init, last := list[..|list| - 1], list[|list| - 1];
      RemoveFromElems(init, e);
      assert list == init + [last];
    }
  }

  lemma {:induction false} RemoveFromIs(list: seq<nat>, i: nat)
    requires NoDup(list) && i < |list|
    ensures RemoveFrom(list, list[i]) == Without(list, i)
    decreases |list|
  {
    var n := |list| - 1;
    if i < n {
      RemoveFromIs(list[..n], i);
    } else {
      RemoveFromElems(list[..n], list[n]);
    }
  }

  lemma {:induction false} SumRemoveFrom(charge: map<nat, nat>, list: seq<nat>, e: nat)
    requires NoDup(list) && e in list && forall d :: d in list ==> d in charge
    ensures forall d :: d in RemoveFrom(list, e) ==> d in charge
    ensures Sum(charge, list) == Sum(charge, RemoveFrom(list, e)) + charge[e]
  {
    var init, last := list[..|list| - 1], list[|list| - 1];
    assert list == init + [last];
    RemoveFromElems(list, e);
    RemoveFromElems(init, e);
    if last != e {
      SumRemoveFrom(charge, init, e);
      SumSnoc(charge, RemoveFrom(init, e), last);
    } else {
      assert e !in init && RemoveFrom(list, e) == init;
      SumSnoc(charge, init, last);
    }
  }

  lemma SumSnoc(charge: map<nat, nat>, list: seq<nat>, e: nat)
    requires e in charge && forall d :: d in list ==> d in charge
    ensures Sum(charge, list + [e]) == Sum(charge, list) + charge[e]
  {
    assert (list + [e])[..|list|] == list;
  }

  lemma {:induction false} SumSame(charge: map<nat, nat>, charge': map<nat, nat>, list: seq<nat>)
    requires forall d :: d in list ==> d in charge && d in charge' && charge[d] == charge'[d]
    ensures Sum(charge, list) == Sum(charge', list)
  {
    if list != [] {
      SumSame(charge, charge', list[..|list| - 1]);
    }
  }

  lemma OthersApart(links: Links, lru: seq<nat>, inUse: seq<nat>)
    requires Linked(links, lru, inUse)
    ensures forall e :: e in [IN_USE] + inUse ==> Apart(LRU, lru, e)
    ensures forall e :: e in [LRU] + lru ==> Apart(IN_USE, inUse, e)
    ensures NoDup(lru) && NoDup(inUse)
  {
    assert forall i :: 0 <= i < |lru| ==> ([LRU] + lru)[i + 1] == lru[i];
    assert forall i :: 0 <= i < |inUse| ==> ([IN_USE] + inUse)[i + 1] == inUse[i];
  }

  // ---------- what the cache keeps ----------

  /** The lists are well linked, and share nothing. */
  ghost predicate Linked(links: Links, lru: seq<nat>, inUse: seq<nat>) {
    && Ring(links, LRU, lru) && Ring(links, IN_USE, inUse) && (forall e :: e in lru ==> e !in inUse)
    && (forall e :: e in lru ==> e >= 2) && (forall e :: e in inUse ==> e >= 2)
  }

  /** Each cached handle is in one of the lists. */
  ghost predicate Listed(cached: set<nat>, lru: seq<nat>, inUse: seq<nat>) {
    forall e :: e in cached <==> e in lru || e in inUse
  }

  /** References: the count is the clients' plus the cache's own.  A cached handle is
      on lru when only the cache refers to it, and in use otherwise. */
  ghost predicate Counted(refs: map<nat, nat>, held: map<nat, nat>, cached: set<nat>, lru: seq<nat>, inUse: seq<nat>) {
    && held.Keys == refs.Keys && cached <= refs.Keys
    && (forall e :: e in refs ==> refs[e] == held[e] + (if e in cached then 1 else 0) && refs[e] > 0)
    && (forall e :: e in lru ==> e in refs && refs[e] == 1) && (forall e :: e in inUse ==> e in refs && refs[e] >= 2)
  }

  /** Every handle ever made is alive or has been deleted, once. */
  ghost predicate Accounted(live: set<nat>, deleted: seq<nat>, nextHandle: nat) {
    && nextHandle >= 2 && NoDup(deleted) && (forall e :: e in deleted ==> 2 <= e < nextHandle)
    && (forall e :: e in live ==> 2 <= e < nextHandle) && forall e :: 2 <= e < nextHandle ==>
      (e in live <==> e !in deleted)
  }

  ghost predicate Used(usage: nat, charge: map<nat, nat>, lru: seq<nat>, inUse: seq<nat>) {
    && (forall e :: e in lru ==> e in charge) && (forall e :: e in inUse ==> e in charge)
    && usage == Sum(charge, lru) + Sum(charge, inUse)
  }

  /** Handle e goes from one list to the end of the other. */
  ghost predicate Moved(toLru: bool, e: nat, lru: seq<nat>, inUse: seq<nat>, lru': seq<nat>, inUse': seq<nat>) {
    && lru' == RemoveFrom(lru, e) + (if toLru then [e] else [])
    && inUse' == RemoveFrom(inUse, e) + (if toLru then [] else [e])
  }

  lemma MovedMembers(toLru: bool, e: nat, lru: seq<nat>, inUse: seq<nat>, lru': seq<nat>, inUse': seq<nat>)
    requires Moved(toLru, e, lru, inUse, lru', inUse')
    ensures forall d :: d in lru' <==> (d in lru && d != e) || (toLru && d == e)
    ensures forall d :: d in inUse' <==> (d in inUse && d != e) || (!toLru && d == e)
  {
    RemoveFromElems(lru, e);
    RemoveFromElems(inUse, e);
  }

  lemma MovedUsed(usage: nat, charge: map<nat, nat>, toLru: bool, e: nat, lru: seq<nat>, inUse: seq<nat>,
                  lru': seq<nat>, inUse': seq<nat>)
    requires Used(usage, charge, lru, inUse) && Moved(toLru, e, lru, inUse, lru', inUse')
    requires NoDup(lru) && NoDup(inUse) && if toLru then e in inUse && e !in lru else e in lru && e !in inUse
    ensures Used(usage, charge, lru', inUse')
  {
    MovedMembers(toLru, e, lru, inUse, lru', inUse');
    RemoveFromElems(lru, e);
    RemoveFromElems(inUse, e);
    if toLru {
      SumRemoveFrom(charge, inUse, e);
      SumSnoc(charge, lru, e);
      assert inUse' == RemoveFrom(inUse, e);
    } else {
      SumRemoveFrom(charge, lru, e);
      SumSnoc(charge, inUse, e);
      assert lru' == RemoveFrom(lru, e);
    }
  }

  /** One more reference to e, which goes in use if only the cache referred to it. */
  lemma Reffed(refs: map<nat, nat>, held: map<nat, nat>, cached: set<nat>, e: nat,
               lru: seq<nat>, inUse: seq<nat>, lru': seq<nat>, inUse': seq<nat>)
    requires Counted(refs, held, cached, lru, inUse) && Listed(cached, lru, inUse) && e in refs
    requires forall d :: d in lru' <==> d in lru && d != e
    requires forall d :: d in inUse' <==> d in inUse || (d in lru && d == e)
    ensures Counted(refs[e := refs[e] + 1], held[e := held[e] + 1], cached, lru', inUse')
    ensures Listed(cached, lru', inUse')
  {
  }

  // ---------- states ----------

  /** Everything but the hash table: usage, links; of the live handles reference
      counts, charges and keys; the in_cache flags; how many handles were made; the
      two lists, oldest first; references clients hold; deleter calls, in order. */
  datatype State = State(
    usage: nat, links: Links, refs: map<nat, nat>, charge: map<nat, nat>, info: map<nat, Info>, cached: set<nat>,
      nextHandle: nat,
    lru: seq<nat>, inUse: seq<nat>, held: map<nat, nat>, deleted: seq<nat>)

  ghost predicate CoreOf(s: State) {
    && Linked(s.links, s.lru, s.inUse) && Listed(s.cached, s.lru, s.inUse)
    && Counted(s.refs, s.held, s.cached, s.lru, s.inUse)
    && s.charge.Keys == s.info.Keys == s.refs.Keys && Accounted(s.refs.Keys, s.deleted, s.nextHandle)
    && Used(s.usage, s.charge, s.lru, s.inUse)
  }

  /** Ref. */
  ghost predicate Referred(s: State, t: State, e: nat) {
    && e in s.refs && e in s.held
    && t == s.(refs := s.refs[e := s.refs[e] + 1], held := s.held[e := s.held[e] + 1], links := t.links, lru := t.lru,
      inUse := t.inUse)
    && if s.refs[e] == 1 && e in s.cached then Linked(t.links, t.lru, t.inUse)
      && Moved(false, e, s.lru, s.inUse, t.lru, t.inUse)
       else t.links == s.links && t.lru == s.lru && t.inUse == s.inUse
  }

  lemma ReferredKeeps(s: State, t: State, e: nat)
    requires CoreOf(s) && Referred(s, t, e)
    ensures CoreOf(t) && t.lru == RemoveFrom(s.lru, e)
  {
    LastReference(s, e);
    ReferredLists(s, t, e);
    if s.refs[e] == 1 && e in s.cached {
      OthersApart(s.links, s.lru, s.inUse);
      MovedUsed(s.usage, s.charge, false, e, s.lru, s.inUse, t.lru, t.inUse);
    }
  }

  lemma ReferredLists(s: State, t: State, e: nat)
    requires Linked(s.links, s.lru, s.inUse) && Listed(s.cached, s.lru, s.inUse)
    requires Counted(s.refs, s.held, s.cached, s.lru, s.inUse) && Referred(s, t, e)
    requires e in s.cached && s.refs[e] == 1 <==> e in s.lru
    ensures Linked(t.links, t.lru, t.inUse) && Listed(t.cached, t.lru, t.inUse)
    ensures Counted(t.refs, t.held, t.cached, t.lru, t.inUse) && t.lru == RemoveFrom(s.lru, e)
  {
    OthersApart(s.links, s.lru, s.inUse);
    RemoveFromElems(s.lru, e);
    if e in s.lru {
      MovedMembers(false, e, s.lru, s.inUse, t.lru, t.inUse);
    }
    Reffed(s.refs, s.held, s.cached, e, s.lru, s.inUse, t.lru, t.inUse);
  }

  /** The deleter runs for e, and it is freed. */
  function Without1(s: State, e: nat): State {
    s.(refs := s.refs - {e}, charge := s.charge - {e}, info := s.info - {e}, held := s.held - {e},
      deleted := s.deleted + [e])
  }

  /** Unref of a client's reference. */
  ghost predicate Unreferred(s: State, t: State, e: nat) {
    && e in s.refs && e in s.held && s.held[e] > 0 && s.refs[e] > 0
    && if s.refs[e] == 1 then t == Without1(s, e)
       else
         && t == s.(refs := s.refs[e := s.refs[e] - 1], held := s.held[e := s.held[e] - 1], links := t.links,
           lru := t.lru, inUse := t.inUse)
         && if s.refs[e] == 2 && e in s.cached then Linked(t.links, t.lru, t.inUse)
           && Moved(true, e, s.lru, s.inUse, t.lru, t.inUse)
            else t.links == s.links && t.lru == s.lru && t.inUse == s.inUse
  }

  lemma DeletedKeeps(s: State, e: nat)
    requires CoreOf(s) && e in s.refs && e !in s.cached
    ensures CoreOf(Without1(s, e))
  {
    assert e !in s.lru && e !in s.inUse;
    DeletedUsed(s.usage, s.charge, s.lru, s.inUse, e);
    DeletedAccounted(s.refs.Keys, s.deleted, s.nextHandle, e);
    assert Without1(s, e).refs.Keys == s.refs.Keys - {e};
  }

  lemma LastReference(s: State, e: nat)
    requires CoreOf(s) && e in s.refs
    ensures e in s.held && (s.held[e] > 0 && s.refs[e] == 1 ==> e !in s.cached)
    ensures e in s.lru <==> e in s.cached && s.refs[e] == 1
    ensures e in s.inUse <==> e in s.cached && s.refs[e] >= 2
  {
  }

  lemma Lowered(s: State, m: State, t: State, e: nat)
    requires e in s.refs && e in s.held && s.held[e] > 0 && s.refs[e] > 1
    requires m == s.(links := m.links, lru := m.lru, inUse := m.inUse)
    requires t == m.(refs := m.refs[e := m.refs[e] - 1], held := m.held[e := m.held[e] - 1])
    requires if e in s.cached && s.refs[e] == 2 then Linked(m.links, m.lru, m.inUse)
               && Moved(true, e, s.lru, s.inUse, m.lru, m.inUse)
             else m == s
    ensures Unreferred(s, t, e)
  {
  }

  /** Letting go of a reference changes neither what is cached nor its keys. */
  lemma InRefs(s: State, e: nat)
    requires CoreOf(s) && e in s.cached
    ensures e in s.refs && e in s.held
  {
  }

  lemma ReferredKeyed(s: State, t: State, table: map<nat, Info>, e: nat)
    requires Referred(s, t, e) && Keyed(table, s.info, s.cached)
    ensures Keyed(table, t.info, t.cached)
  {
  }

  lemma KeyedIs(table: map<nat, Info>, info: map<nat, Info>, cached: set<nat>, e: nat, key: Bytes, hash: nat)
    requires Keyed(table, info, cached) && e in cached
    ensures Is(table, e, key, hash) <==> Is(info, e, key, hash)
  {
  }

  lemma KeyedNot(table: map<nat, Info>, info: map<nat, Info>, cached: set<nat>, key: Bytes, hash: nat)
    requires Keyed(table, info, cached) && forall e :: e in cached ==> !Is(table, e, key, hash)
    ensures forall e :: e in cached ==> !Is(info, e, key, hash)
  {
  }

  lemma UnreferredKeyed(s: State, t: State, table: map<nat, Info>, e: nat)
    requires CoreOf(s) && Unreferred(s, t, e) && Keyed(table, s.info, s.cached)
    ensures t.cached == s.cached && Keyed(table, t.info, t.cached)
  {
    LastReference(s, e);
    assert s.refs[e] == 1 ==> e !in s.cached;
  }

  lemma UnreferredKeeps(s: State, t: State, e: nat)
    requires CoreOf(s) && Unreferred(s, t, e)
    ensures CoreOf(t)
  {
    LastReference(s, e);
    if s.refs[e] == 1 {
      DeletedKeeps(s, e);
    } else {
      OthersApart(s.links, s.lru, s.inUse);
      if s.refs[e] == 2 && e in s.cached {
        MovedMembers(true, e, s.lru, s.inUse, t.lru, t.inUse);
      }
      Unreffed(s.refs, s.held, s.cached, e, s.lru, s.inUse, t.lru, t.inUse);
      if s.refs[e] == 2 && e in s.cached {
        MovedUsed(s.usage, s.charge, true, e, s.lru, s.inUse, t.lru, t.inUse);
      }
    }
  }

  lemma Unreffed(refs: map<nat, nat>, held: map<nat, nat>, cached: set<nat>, e: nat,
                 lru: seq<nat>, inUse: seq<nat>, lru': seq<nat>, inUse': seq<nat>)
    requires Counted(refs, held, cached, lru, inUse) && Listed(cached, lru, inUse) && e in refs && held[e] > 0
    requires refs[e] > 1
    requires var goes := refs[e] == 2 && e in cached;
             ((forall d :: d in lru' <==> d in lru || (goes && d == e))
              && forall d :: d in inUse' <==> d in inUse && !(goes && d == e))
    ensures Counted(refs[e := refs[e] - 1], held[e := held[e] - 1], cached, lru', inUse')
    ensures Listed(cached, lru', inUse')
  {
  }

  /** FinishErase: e leaves the cache, and is deleted if no client refers to it. */
  ghost predicate Erased(s: State, t: State, e: nat) {
    && e in s.refs && e in s.charge && s.charge[e] <= s.usage && s.refs[e] > 0
    && var u := s.(links := t.links, lru := RemoveFrom(s.lru, e), inUse := RemoveFrom(s.inUse, e),
                   cached := s.cached - {e}, usage := s.usage - s.charge[e]);
       Linked(u.links, u.lru, u.inUse)
         && t == if s.refs[e] == 1 then Without1(u, e) else u.(refs := u.refs[e := u.refs[e] - 1])
  }

  lemma RemovedUsed(usage: nat, charge: map<nat, nat>, lru: seq<nat>, inUse: seq<nat>, e: nat)
    requires Used(usage, charge, lru, inUse) && NoDup(lru) && NoDup(inUse) && (e in lru <==> e !in inUse)
    ensures e in charge && charge[e] <= usage
    ensures Used(usage - charge[e], charge, RemoveFrom(lru, e), RemoveFrom(inUse, e))
  {
    RemoveFromElems(lru, e);
    RemoveFromElems(inUse, e);
    if e in lru {
      SumRemoveFrom(charge, lru, e);
    } else {
      SumRemoveFrom(charge, inUse, e);
    }
  }

  lemma ErasedCounted(refs: map<nat, nat>, held: map<nat, nat>, cached: set<nat>, e: nat,
                      lru: seq<nat>, inUse: seq<nat>, lru': seq<nat>, inUse': seq<nat>)
    requires Counted(refs, held, cached, lru, inUse) && Listed(cached, lru, inUse) && e in cached
    requires (forall d :: d in lru' <==> d in lru && d != e) && forall d :: d in inUse' <==> d in inUse && d != e
    ensures Listed(cached - {e}, lru', inUse')
    ensures refs[e] > 1 ==> Counted(refs[e := refs[e] - 1], held, cached - {e}, lru', inUse')
    ensures refs[e] == 1 ==> Counted(refs - {e}, held - {e}, cached - {e}, lru', inUse')
  {
  }

  lemma DeletedUsed(usage: nat, charge: map<nat, nat>, lru: seq<nat>, inUse: seq<nat>, e: nat)
    requires Used(usage, charge, lru, inUse) && e !in lru && e !in inUse
    ensures Used(usage, charge - {e}, lru, inUse)
  {
    SumSame(charge, charge - {e}, lru);
    SumSame(charge, charge - {e}, inUse);
  }

  lemma DeletedAccounted(live: set<nat>, deleted: seq<nat>, nextHandle: nat, e: nat)
    requires Accounted(live, deleted, nextHandle) && e in live
    ensures Accounted(live - {e}, deleted + [e], nextHandle)
  {
  }

  lemma ErasedKeeps(s: State, t: State, e: nat)
    requires CoreOf(s) && e in s.cached && Erased(s, t, e)
    ensures CoreOf(t)
  {
    OthersApart(s.links, s.lru, s.inUse);
    RemovedUsed(s.usage, s.charge, s.lru, s.inUse, e);
    RemoveFromElems(s.lru, e);
    RemoveFromElems(s.inUse, e);
    ErasedCounted(s.refs, s.held, s.cached, e, s.lru, s.inUse, t.lru, t.inUse);
    if s.refs[e] == 1 {
      DeletedUsed(t.usage, s.charge, t.lru, t.inUse, e);
      DeletedAccounted(s.refs.Keys, s.deleted, s.nextHandle, e);
      assert t.refs.Keys == s.refs.Keys - {e};
    } else {
      assert t.refs.Keys == s.refs.Keys;
    }
  }

  /** Insert's new handle: appended to the list in use when the cache has room at all. */
  function MadeState(s: State, key: Info, c: nat, caching: bool): State
    requires IN_USE in s.links.prev
  {
    var e := s.nextHandle;
    if caching then
      State(s.usage + c, Append(s.links, IN_USE, e), s.refs[e := 2], s.charge[e := c], s.info[e := key], s.cached + {e},
        e + 1,
            s.lru, s.inUse + [e], s.held[e := 1], s.deleted)
    else
      State(s.usage, s.links, s.refs[e := 1], s.charge[e := c], s.info[e := key], s.cached, e + 1,
            s.lru, s.inUse, s.held[e := 1], s.deleted)
  }

  lemma MadeKeeps(s: State, key: Info, c: nat, caching: bool)
    requires CoreOf(s)
    ensures IN_USE in s.links.prev && CoreOf(MadeState(s, key, c, caching))
  {
    NewHandleFresh(s);
    Appended(s.links, s.lru, s.inUse, false, s.nextHandle);
    if caching {
      MadeCached(s, key, c);
    } else {
      MadeLoose(s, key, c);
    }
  }

  lemma MadeCached(s: State, key: Info, c: nat)
    requires CoreOf(s) && IN_USE in s.links.prev && Fresh(s)
    requires Linked(Append(s.links, IN_USE, s.nextHandle), s.lru + [], s.inUse + [s.nextHandle])
    ensures CoreOf(MadeState(s, key, c, true))
  {
    var e := s.nextHandle;
    assert s.lru + [] == s.lru;
    MadeUsed(s.usage, s.charge, s.lru, s.inUse, e, c);
    MadeCounted(s.refs, s.held, s.cached, s.lru, s.inUse, e);
    MadeAccounted(s.refs.Keys, s.deleted, e);
    MadeKeys(s, key, c, 2);
  }

  lemma MadeKeys(s: State, key: Info, c: nat, n: nat)
    requires s.charge.Keys == s.info.Keys == s.refs.Keys
    ensures var e := s.nextHandle;
            s.refs[e := n].Keys == s.refs.Keys + {e} == s.charge[e := c].Keys == s.info[e := key].Keys
  {
  }

  lemma MadeLoose(s: State, key: Info, c: nat)
    requires CoreOf(s) && IN_USE in s.links.prev && Fresh(s)
    ensures CoreOf(MadeState(s, key, c, false))
  {
    var e := s.nextHandle;
    MadeUsed(s.usage, s.charge, s.lru, s.inUse, e, c);
    MadeCounted(s.refs, s.held, s.cached, s.lru, s.inUse, e);
    MadeAccounted(s.refs.Keys, s.deleted, e);
    MadeKeys(s, key, c, 1);
  }

  lemma NewHandleFresh(s: State)
    requires CoreOf(s)
    ensures Fresh(s)
  {
  }

  /** The next handle is not in use anywhere. */
  ghost predicate Fresh(s: State) {
    s.nextHandle !in s.lru && s.nextHandle !in s.inUse && s.nextHandle !in s.cached && s.nextHandle !in s.refs
  }

  lemma MadeUsed(usage: nat, charge: map<nat, nat>, lru: seq<nat>, inUse: seq<nat>, e: nat, c: nat)
    requires Used(usage, charge, lru, inUse) && e !in lru && e !in inUse
    ensures Used(usage, charge[e := c], lru, inUse) && Used(usage + c, charge[e := c], lru, inUse + [e])
  {
    SumSame(charge, charge[e := c], lru);
    SumSame(charge, charge[e := c], inUse);
    SumSnoc(charge[e := c], inUse, e);
  }

  lemma MadeCounted(refs: map<nat, nat>, held: map<nat, nat>, cached: set<nat>, lru: seq<nat>, inUse: seq<nat>, e: nat)
    requires Counted(refs, held, cached, lru, inUse) && Listed(cached, lru, inUse) && e !in refs
    ensures Counted(refs[e := 1], held[e := 1], cached, lru, inUse)
    ensures Counted(refs[e := 2], held[e := 1], cached + {e}, lru, inUse + [e])
    ensures Listed(cached + {e}, lru, inUse + [e])
  {
  }

  lemma MadeAccounted(live: set<nat>, deleted: seq<nat>, e: nat)
    requires Accounted(live, deleted, e) && e >= 2
    ensures Accounted(live + {e}, deleted, e + 1)
  {
  }

  /** The table's keys are the handles' own. */
  ghost predicate Keyed(table: map<nat, Info>, info: map<nat, Info>, cached: set<nat>) {
    forall e :: e in cached ==> e in info && e in table && table[e] == info[e]
  }

  lemma EmptyCore(s: State)
    requires s == State(0, Links(map[LRU := LRU, IN_USE := IN_USE], map[LRU := LRU, IN_USE := IN_USE]), map[], map[],
               map[], {}, 2, [], [], map[], [])
    ensures CoreOf(s)
  {
  }

  lemma ChargeUsed(s: State, e: nat)
    requires CoreOf(s) && e in s.cached
    ensures e in s.charge && s.charge[e] <= s.usage
  {
    OthersApart(s.links, s.lru, s.inUse);
    RemovedUsed(s.usage, s.charge, s.lru, s.inUse, e);
  }

  lemma Unlinked(links: Links, lru: seq<nat>, inUse: seq<nat>, e: nat)
    requires Linked(links, lru, inUse) && (e in lru || e in inUse)
    ensures e in links.next && e in links.prev && Linked(Remove(links, e), RemoveFrom(lru, e), RemoveFrom(inUse, e))
    ensures e !in RemoveFrom(lru, e) && e !in RemoveFrom(inUse, e)
  {
    OthersApart(links, lru, inUse);
    RemoveFromElems(lru, e);
    RemoveFromElems(inUse, e);
    if e in lru {
      var i :| 0 <= i < |lru| && lru[i] == e;
      RemoveRing(links, LRU, lru, i);
      RemoveElsewhere(links, IN_USE, inUse, LRU, lru, i);
      RemoveFromIs(lru, i);
    } else {
      var i :| 0 <= i < |inUse| && inUse[i] == e;
      RemoveRing(links, IN_USE, inUse, i);
      RemoveElsewhere(links, LRU, lru, IN_USE, inUse, i);
      RemoveFromIs(inUse, i);
    }
  }

  lemma Appended(links: Links, lru: seq<nat>, inUse: seq<nat>, toLru: bool, e: nat)
    requires Linked(links, lru, inUse) && e >= 2 && e !in lru && e !in inUse
    ensures LRU in links.prev && IN_USE in links.prev
    ensures Linked(Append(links, if toLru then LRU else IN_USE, e), lru + (if toLru then [e] else []),
              inUse + if toLru then [] else [e])
  {
    OthersApart(links, lru, inUse);
    AppendElsewhere(links, IN_USE, inUse, LRU, lru, e);
    AppendElsewhere(links, LRU, lru, IN_USE, inUse, e);
    if toLru {
      AppendRing(links, LRU, lru, e);
    } else {
      AppendRing(links, IN_USE, inUse, e);
    }
    assert lru + [] == lru && inUse + [] == inUse;
  }

  class LruCache {
    const capacity: nat
    const table: HandleTable
    var st: State

    /** The table finds exactly the cached handles, by their own keys. */
    ghost predicate Valid()
      reads this, table
    {
      CoreOf(st) && table.Valid() && table.ids == st.cached && Keyed(table.info, st.info, st.cached)
    }

    constructor (capacity: nat)
      ensures Valid() && st.cached == {} && this.capacity == capacity && fresh(table)
    {
      this.capacity := capacity;
      table := new HandleTable();
      var links := Links(map[LRU := LRU, IN_USE := IN_USE], map[LRU := LRU, IN_USE := IN_USE]);
      st := State(0, links, map[], map[], map[], {}, 2, [], [], map[], []);
      new;
      EmptyCore(st);
    }

    // ---------- links ----------

    /** LRU_Remove, from whichever list holds the handle. */
    method LruRemove(e: nat)
      requires Linked(st.links, st.lru, st.inUse) && (e in st.lru || e in st.inUse)
      modifies `st
      ensures st
                == old(st).(links := st.links, lru := RemoveFrom(old(st).lru, e), inUse := RemoveFrom(old(st).inUse, e))
      ensures Linked(st.links, st.lru, st.inUse) && e !in st.lru && e !in st.inUse
    {
      Unlinked(st.links, st.lru, st.inUse, e);
      st := st.(links := Remove(st.links, e), lru := RemoveFrom(st.lru, e), inUse := RemoveFrom(st.inUse, e));
    }

    /** LRU_Append to one of the lists. */
    method LruAppend(toLru: bool, e: nat)
      requires Linked(st.links, st.lru, st.inUse) && e >= 2 && e !in st.lru && e !in st.inUse
      modifies `st
      ensures st == old(st).(links := st.links, lru := old(st).lru + (if toLru then [e] else []),
                             inUse := old(st).inUse + (if toLru then [] else [e]))
      ensures Linked(st.links, st.lru, st.inUse)
    {
      Appended(st.links, st.lru, st.inUse, toLru, e);
      st := st.(links := Append(st.links, if toLru then LRU else IN_USE, e),
                lru := st.lru + (if toLru then [e] else []), inUse := st.inUse + (if toLru then [] else [e]));
    }

    /** LRU_Remove, then LRU_Append to the other list. */
    method MoveTo(toLru: bool, e: nat)
      requires Linked(st.links, st.lru, st.inUse) && if toLru then e in st.inUse else e in st.lru
      modifies `st
      ensures st == old(st).(links := st.links, lru := st.lru, inUse := st.inUse)
      ensures Linked(st.links, st.lru, st.inUse) && Moved(toLru, e, old(st).lru, old(st).inUse, st.lru, st.inUse)
    {
      LruRemove(e);
      LruAppend(toLru, e);
    }

    // ---------- references ----------

    /** Ref: one more reference for a client. */
    method Ref(e: nat)
      requires CoreOf(st) && e in st.refs
      modifies `st
      ensures CoreOf(st) && Referred(old(st), st, e)
    {
      LastReference(st, e);
      if st.refs[e] == 1 && e in st.cached {
        MoveTo(false, e);
      }
      st := st.(refs := st.refs[e := st.refs[e] + 1], held := st.held[e := st.held[e] + 1]);
      ReferredKeeps(old(st), st, e);
    }

    /** Unref of a client's reference. */
    method Unref(e: nat)
      requires CoreOf(st) && e in st.held && st.held[e] > 0
      modifies `st
      ensures CoreOf(st) && Unreferred(old(st), st, e)
    {
      ghost var s := st;
      LastReference(st, e);
      if st.refs[e] == 1 {
        st := Without1(st, e);
      } else {
        if e in st.cached && st.refs[e] == 2 {
          MoveTo(true, e);
        }
        ghost var m := st;
        st := st.(refs := st.refs[e := st.refs[e] - 1], held := st.held[e := st.held[e] - 1]);
        Lowered(s, m, st, e);
      }
      UnreferredKeeps(s, st, e);
    }

    /** Release: Unref. */
    method Release(e: nat)
      requires Valid() && e in st.held && st.held[e] > 0
      modifies `st
      ensures Valid() && Unreferred(old(st), st, e)
      ensures st.cached == old(st).cached && st.usage == old(st).usage
      ensures var last := old(st).held[e] == 1;
              && st.held == (if last && e !in st.cached then old(st).held - {e}
                             else old(st).held[e := old(st).held[e] - 1])
              && st.deleted == old(st).deleted + (if last && e !in st.cached then [e] else [])
              && st.lru == old(st).lru + (if last && e in st.cached then [e] else [])
    {
      ghost var s := st;
      Unref(e);
      UnreferredKeyed(s, st, table.info, e);
      GivenBack(s, st, e);
    }

    /** FinishErase of a handle already out of the table. */
    method FinishErase(e: nat)
      requires CoreOf(st) && e in st.cached
      modifies `st
      ensures CoreOf(st) && Erased(old(st), st, e)
    {
      LastReference(st, e);
      ChargeUsed(st, e);
      LruRemove(e);
      st := st.(cached := st.cached - {e}, usage := st.usage - st.charge[e]);
      st := if st.refs[e] == 1 then Without1(st, e) else st.(refs := st.refs[e := st.refs[e] - 1]);
      ErasedKeeps(old(st), st, e);
    }

    // ---------- the cache ----------

    /** Lookup: a reference to the cached handle with this key and hash, if any. */
    method Lookup(key: Bytes, hash: nat) returns (r: Option<nat>)
      requires Valid()
      modifies `st
      ensures Valid()
      ensures r.Some? ==> r.value in st.cached && Is(st.info, r.value, key, hash) && Referred(old(st), st, r.value)
      ensures r.Some? ==>
                && r.value in st.held && r.value in old(st).held && st.held[r.value] == old(st).held[r.value] + 1
                && st.held - {r.value} == old(st).held - {r.value}
                && st.lru == RemoveFrom(old(st).lru, r.value) && st.cached == old(st).cached
                && st.deleted == old(st).deleted && st.usage == old(st).usage
      ensures r == None ==> st == old(st) && forall e :: e in st.cached ==> !Is(st.info, e, key, hash)
    {
      r := table.Lookup(key, hash);
      if r.Some? {
        KeyedIs(table.info, st.info, st.cached, r.value, key, hash);
        RefCached(r.value);
      } else {
        KeyedNot(table.info, st.info, st.cached, key, hash);
      }
    }

    /** Ref, of a handle that is in the table. */
    method RefCached(e: nat)
      requires Valid() && e in st.cached
      modifies `st
      ensures Valid() && Referred(old(st), st, e)
      ensures e in st.held && e in old(st).held && st.held[e] == old(st).held[e] + 1
      ensures st.held - {e} == old(st).held - {e}
      ensures st.lru == RemoveFrom(old(st).lru, e) && st.cached == old(st).cached && st.info == old(st).info
      ensures st.deleted == old(st).deleted && st.usage == old(st).usage
    {
      ghost var s := st;
      InRefs(s, e);
      Ref(e);
      TakenIn(s, st, e);
      ReferredKeyed(s, st, table.info, e);
    }

    /** Erase: the handle with this key and hash leaves the cache. */
    method Erase(key: Bytes, hash: nat) returns (ghost e: Option<nat>)
      requires Valid()
      modifies `st, table
      ensures Valid() && forall d :: d in st.cached ==> !Is(st.info, d, key, hash)
      ensures if e.Some? then e.value in old(st).cached && Is(old(st).info, e.value, key, hash)
                && Erased(old(st), st, e.value) else st == old(st)
      ensures e.Some? ==>
                && e.value in old(st).held && st.cached == old(st).cached - {e.value}
                && st.lru == RemoveFrom(old(st).lru, e.value)
                && st.deleted == old(st).deleted + (if old(st).held[e.value] == 0 then [e.value] else [])
                && (old(st).held[e.value] > 0 ==> st.held == old(st).held)
    {
      var r := table.Remove(key, hash);
      e := r;
      if r.Some? {
        FinishErase(r.value);
        ErasedOut(old(st), st, r.value);
      }
    }

    /** Insert's loop, or Prune: unreferenced handles leave, oldest first, until usage
        is within capacity (Insert), or none is left.  No more leave than need to. */
    method Evict(prune: bool) returns (ghost n: nat)
      requires Valid()
      modifies `st, table
      ensures Valid() && (st.lru == [] || (!prune && st.usage <= capacity))
      ensures Evicted(old(st), st, n) && (prune || Needed(old(st), st, n, capacity))
    {
      n := 0;
      ghost var s := st;
      EvictedNone(s);
      while (prune || st.usage > capacity) && st.lru != []
        invariant Valid() && Evicted(s, st, n) && (prune || Needed(s, st, n, capacity))
        decreases |st.lru|
      {
        ghost var t := st;
        EvictOldest();
        EvictedMore(s, t, st, n);
        n := n + 1;
      }
    }

    /** Insert: a new handle for the client, cached if the cache has any capacity, in
        place of the one with its key and hash; then whatever does not fit leaves. */
    method Insert(key: Bytes, hash: nat, charge: nat)
      returns (e: nat, ghost s: State, ghost replaced: Option<nat>, ghost n: nat)
      requires Valid()
      modifies `st, table
      ensures Valid() && (st.lru == [] || st.usage <= capacity)
      ensures e == old(st).nextHandle && Inserted(old(st), s, e, Info(key, hash), charge, capacity > 0, replaced)
      ensures Evicted(s, st, n) && Needed(s, st, n, capacity)
      ensures e in st.held && st.held[e] == 1 && (e in st.inUse <==> capacity > 0)
      ensures if replaced.Some? then capacity > 0 && replaced.value in old(st).cached
                                     && Is(old(st).info, replaced.value, key, hash)
              else capacity > 0 ==> forall d :: d in old(st).cached ==> !Is(old(st).info, d, key, hash)
      ensures var rest := if replaced.Some? then RemoveFrom(old(st).lru, replaced.value) else old(st).lru;
              && n <= |rest| && st.lru == rest[n..]
              && (n > 0 ==> rest[n - 1] in old(st).charge && st.usage + old(st).charge[rest[n - 1]] > capacity)
              && st.deleted == old(st).deleted
                               + (if replaced.Some? && old(st).held[replaced.value] == 0 then [replaced.value] else [])
                               + rest[..n]
              && forall d :: d in st.cached <==>
                               (d in old(st).cached && replaced != Some(d) && d !in rest[..n])
                               || (d == e && capacity > 0)
    {
      e := st.nextHandle;
      replaced := Place(key, hash, charge);
      s := st;
      InsertedHeld(old(st), s, e, Info(key, hash), charge, capacity > 0, replaced);
      n := Evict(false);
      StillHeld(s, st, n, e);
      Superseded(old(st), s, e, Info(key, hash), charge, capacity > 0, replaced);
      EvictedCached(s, st, n);
    }

    /** Insert up to its loop. */
    method Place(key: Bytes, hash: nat, charge: nat) returns (replaced: Option<nat>)
      requires Valid()
      modifies `st, table
      ensures Valid() && Inserted(old(st), st, old(st).nextHandle, Info(key, hash), charge, capacity > 0, replaced)
    {
      var e := st.nextHandle;
      ghost var s := st;
      NewHandleFresh(s);
      MadeKeeps(s, Info(key, hash), charge, capacity > 0);
      st := MadeState(st, Info(key, hash), charge, capacity > 0);
      ghost var m := st;
      replaced := None;
      if capacity > 0 {
        replaced := PutInTable(e, key, hash, charge, s);
      }
      assert InsertedVia(s, m, st, Info(key, hash), charge, capacity > 0, replaced);
    }

    /** table_.Insert, then FinishErase of what it replaced. */
    method PutInTable(e: nat, key: Bytes, hash: nat, charge: nat, ghost s: State) returns (replaced: Option<nat>)
      requires table.Valid() && table.ids == s.cached && Keyed(table.info, s.info, s.cached)
      requires CoreOf(st) && IN_USE in s.links.prev && st == MadeState(s, Info(key, hash), charge, true)
      requires e == s.nextHandle && e !in s.cached
      modifies `st, table
      ensures Valid() && InsertedVia(s, old(st), st, Info(key, hash), charge, true, replaced)
    {
      replaced := TableInsert(e, key, hash, charge, s);
      EraseReplaced(replaced);
    }

    /** FinishErase of what table_.Insert returned. */
    method EraseReplaced(replaced: Option<nat>)
      requires CoreOf(st) && table.Valid() && table.ids == st.cached - (if replaced.Some? then {replaced.value} else {})
      requires Keyed(table.info, st.info, st.cached) && (replaced.Some? ==> replaced.value in st.cached)
      modifies `st
      ensures Valid() && if replaced.Some? then Erased(old(st), st, replaced.value) else st == old(st)
    {
      ghost var m := st;
      if replaced.Some? {
        FinishErase(replaced.value);
        ErasedKeyed(m, st, table.info, replaced.value);
      }
    }

    method TableInsert(e: nat, key: Bytes, hash: nat, charge: nat, ghost s: State) returns (replaced: Option<nat>)
      requires table.Valid() && table.ids == s.cached && Keyed(table.info, s.info, s.cached) && e == s.nextHandle
      requires e !in s.cached
      requires IN_USE in s.links.prev && st == MadeState(s, Info(key, hash), charge, true)
      modifies table
      ensures table.Valid() && table.ids == st.cached - (if replaced.Some? then {replaced.value} else {})
      ensures Keyed(table.info, st.info, st.cached)
      ensures (replaced.Some? ==> replaced.value in st.cached) && Supersedes(s, Info(key, hash), replaced)
    {
      ghost var before := table.info;
      replaced := table.Insert(e, key, hash);
      MadeKeyed(s, st, before, Info(key, hash), charge, replaced);
      MadeIds(s, st, Info(key, hash), charge, replaced, table.ids);
    }

    /** Prune: every unreferenced handle leaves. */
    method Prune() returns (ghost n: nat)
      requires Valid()
      modifies `st, table
      ensures Valid() && st.lru == [] && n == |old(st).lru| && Evicted(old(st), st, n)
      ensures st.deleted == old(st).deleted + old(st).lru
      ensures forall d :: d in st.cached <==> d in old(st).cached && d !in old(st).lru
    {
      n := Evict(true);
      EvictedCached(old(st), st, n);
      assert old(st).lru[..n] == old(st).lru;
    }

    /** One turn of the loop. */
    method EvictOldest()
      requires Valid() && st.lru != []
      modifies `st, table
      ensures Valid() && EvictedOne(old(st), st)
    {
      FirstInRing(st.links, st.lru);
      var e := st.links.next[LRU];
      LastReference(st, e);
      TableKey(e);
      var r := table.Remove(st.info[e].key, st.info[e].hash);
      FinishErase(e);
      FirstErased(old(st), st);
    }

    /** The table finds a cached handle by its key. */
    lemma TableKey(e: nat)
      requires Valid() && e in st.cached
      ensures e in st.info && Is(table.info, e, st.info[e].key, st.info[e].hash)
      ensures forall d :: d in table.ids && Is(table.info, d, st.info[e].key, st.info[e].hash) ==> d == e
    {
    }
  }

  /** A new handle was made, and the one it replaces, if any, left the cache. */
  ghost predicate Inserted(s: State, t: State, e: nat, key: Info, charge: nat, caching: bool, replaced: Option<nat>) {
    exists m: State :: InsertedVia(s, m, t, key, charge, caching, replaced)
  }

  ghost predicate InsertedVia(s: State, m: State, t: State, key: Info, charge: nat, caching: bool,
                              replaced: Option<nat>) {
    && IN_USE in s.links.prev && m == MadeState(s, key, charge, caching)
    && (if caching then Supersedes(s, key, replaced) else replaced == None)
    && if replaced == None then t == m else Erased(m, t, replaced.value)
  }

  /** The cached handle with this key, if any. */
  ghost predicate Supersedes(s: State, key: Info, replaced: Option<nat>) {
    if replaced.Some? then replaced.value in s.cached && replaced.value in s.info && s.info[replaced.value] == key
    else forall d :: d in s.cached ==> d in s.info && s.info[d] != key
  }

  lemma MadeIds(s: State, m: State, key: Info, charge: nat, replaced: Option<nat>, ids: set<nat>)
    requires IN_USE in s.links.prev && m == MadeState(s, key, charge, true) && s.nextHandle !in s.cached
    requires replaced.Some? ==> replaced.value in s.cached && ids == s.cached - {replaced.value} + {s.nextHandle}
    requires replaced == None ==> ids == s.cached + {s.nextHandle}
    ensures ids == m.cached - if replaced.Some? then {replaced.value} else {}
  {
  }

  /** After the table took the new handle: what it finds, and what it gave up. */
  lemma MadeKeyed(s: State, m: State, table: map<nat, Info>, key: Info, charge: nat, replaced: Option<nat>)
    requires IN_USE in s.links.prev && m == MadeState(s, key, charge, true) && Keyed(table, s.info, s.cached)
    requires s.nextHandle !in s.cached
    requires replaced.Some? ==> replaced.value in s.cached && Is(table, replaced.value, key.key, key.hash)
    requires replaced == None ==> forall d :: d in s.cached ==> !Is(table, d, key.key, key.hash)
    ensures m.cached == s.cached + {s.nextHandle}
    ensures Keyed(table[s.nextHandle := key], m.info, m.cached)
    ensures (replaced.Some? ==> replaced.value in m.cached) && Supersedes(s, key, replaced)
  {
  }

  lemma ErasedKeyed(m: State, t: State, table: map<nat, Info>, e: nat)
    requires Keyed(table, m.info, m.cached) && Erased(m, t, e)
    ensures t.cached == m.cached - {e} && Keyed(table, t.info, t.cached)
  {
  }

  lemma InsertedHeld(s: State, t: State, e: nat, key: Info, charge: nat, caching: bool, replaced: Option<nat>)
    requires CoreOf(s) && e == s.nextHandle && Inserted(s, t, e, key, charge, caching, replaced)
    ensures e in t.held && t.held[e] == 1 && e !in t.lru && (e in t.inUse <==> caching)
  {
    var m :| InsertedVia(s, m, t, key, charge, caching, replaced);
    NewHandleFresh(s);
    if replaced.Some? {
      RemoveFromElems(m.lru, replaced.value);
      RemoveFromElems(m.inUse, replaced.value);
    }
  }

  /** The client's new handle is in use, so it is not evicted. */
  lemma StillHeld(s: State, t: State, n: nat, e: nat)
    requires Evicted(s, t, n) && e in s.held && e !in s.lru
    ensures e in t.held && t.held[e] == s.held[e]
  {
  }

  /** The oldest unreferenced handle left the cache and was deleted. */
  ghost predicate EvictedOne(s: State, t: State) {
    && s.lru != [] && s.lru[0] in s.charge && s.charge[s.lru[0]] <= s.usage
    && var e := s.lru[0];
       t == s.(links := t.links, lru := s.lru[1..], cached := s.cached - {e}, usage := s.usage - s.charge[e],
               refs := s.refs - {e}, charge := s.charge - {e}, info := s.info - {e}, held := s.held - {e},
                 deleted := s.deleted + [e])
  }

  lemma FirstErased(s: State, t: State)
    requires CoreOf(s) && s.lru != [] && Erased(s, t, s.lru[0])
    ensures EvictedOne(s, t)
  {
    var e := s.lru[0];
    OthersApart(s.links, s.lru, s.inUse);
    LastReference(s, e);
    RemoveFromIs(s.lru, 0);
    RemoveFromElems(s.inUse, e);
    assert Without(s.lru, 0) == s.lru[1..];
  }

  /** From s to t the n oldest unreferenced handles left and were deleted, in order;
      the others kept their places, charges, keys and references. */
  ghost predicate Evicted(s: State, t: State, n: nat) {
    && n <= |s.lru| && t.lru == s.lru[n..] && t.inUse == s.inUse && t.nextHandle == s.nextHandle
    && t.deleted == s.deleted + s.lru[..n]
    && (forall e :: e in s.lru ==> e in s.charge)
    && t.charge == s.charge - Elems(s.lru[..n]) && t.info == s.info - Elems(s.lru[..n])
    && t.held == s.held - Elems(s.lru[..n])
  }

  /** Without the last eviction usage would still be over the limit. */
  ghost predicate Needed(s: State, t: State, n: nat, limit: nat) {
    n > 0 ==> n <= |s.lru| && s.lru[n - 1] in s.charge && t.usage + s.charge[s.lru[n - 1]] > limit
  }

  lemma EvictedNone(s: State)
    requires CoreOf(s)
    ensures Evicted(s, s, 0) && NoDup(s.lru)
  {
    OthersApart(s.links, s.lru, s.inUse);
    assert Elems(s.lru[..0]) == {};
  }

  lemma EvictedMore(s: State, t: State, u: State, n: nat)
    requires Evicted(s, t, n) && EvictedOne(t, u) && NoDup(s.lru)
    ensures Evicted(s, u, n + 1) && u.usage + s.charge[s.lru[n]] == t.usage
  {
    var e := t.lru[0];
    assert e == s.lru[n] && s.lru[..n + 1] == s.lru[..n] + [e];
    assert Elems(s.lru[..n + 1]) == Elems(s.lru[..n]) + {e};
  }

  // ---------- what the operations do to each handle ----------

  /** A reference taken. */
  lemma TakenIn(s: State, t: State, e: nat)
    requires CoreOf(s) && Referred(s, t, e)
    ensures e in s.held && t.held == s.held[e := s.held[e] + 1] && t.lru == RemoveFrom(s.lru, e)
    ensures t.cached == s.cached && t.deleted == s.deleted && t.usage == s.usage && t.info == s.info
  {
    ReferredKeeps(s, t, e);
  }

  /** A reference given back. */
  lemma GivenBack(s: State, t: State, e: nat)
    requires CoreOf(s) && Unreferred(s, t, e)
    ensures t.cached == s.cached && t.usage == s.usage
    ensures var last := s.held[e] == 1;
            && t.held == (if last && e !in s.cached then s.held - {e} else s.held[e := s.held[e] - 1])
            && t.deleted == s.deleted + (if last && e !in s.cached then [e] else [])
            && t.lru == s.lru + (if last && e in s.cached then [e] else [])
  {
    LastReference(s, e);
    assert s.refs[e] == s.held[e] + if e in s.cached then 1 else 0;
    RemoveFromElems(s.lru, e);
  }

  /** Handle e is out of the cache, and deleted if no client holds it. */
  ghost predicate TakenOut(s: State, e: nat, cached: set<nat>, lru: seq<nat>, held: map<nat, nat>, deleted: seq<nat>) {
    && e in s.held && cached == s.cached - {e} && lru == RemoveFrom(s.lru, e)
    && held == (if s.held[e] == 0 then s.held - {e} else s.held)
    && deleted == s.deleted + (if s.held[e] == 0 then [e] else [])
  }

  lemma ErasedOut(s: State, t: State, e: nat)
    requires CoreOf(s) && e in s.cached && Erased(s, t, e)
    ensures TakenOut(s, e, t.cached, t.lru, t.held, t.deleted)
  {
    assert s.refs[e] == s.held[e] + 1;
  }

  /** What is left when the new handle is in its place. */
  lemma Superseded(s: State, t: State, e: nat, key: Info, charge: nat, caching: bool, replaced: Option<nat>)
    requires CoreOf(s) && e == s.nextHandle && Inserted(s, t, e, key, charge, caching, replaced)
    ensures replaced.Some? ==> caching && replaced.value in s.cached && s.info[replaced.value] == key
    ensures replaced == None && caching ==> forall d :: d in s.cached ==> s.info[d] != key
    ensures t.lru == if replaced.Some? then RemoveFrom(s.lru, replaced.value) else s.lru
    ensures t.deleted == s.deleted + if replaced.Some? && s.held[replaced.value] == 0 then [replaced.value] else []
    ensures forall d :: d in t.cached <==> (d in s.cached && replaced != Some(d)) || (d == e && caching)
    ensures forall d :: d in t.lru ==> d in t.charge && d in s.charge && t.charge[d] == s.charge[d]
  {
    var m: State :| InsertedVia(s, m, t, key, charge, caching, replaced);
    NewHandleFresh(s);
    MadeKeeps(s, key, charge, caching);
    MadeFields(s, m, key, charge, caching);
    if replaced.Some? {
      SupersededOut(m, t, replaced.value);
    }
  }

  lemma SupersededOut(s: State, t: State, e: nat)
    requires CoreOf(s) && e in s.cached && Erased(s, t, e)
    ensures e in s.held && t.lru == RemoveFrom(s.lru, e)
    ensures t.deleted == s.deleted + if s.held[e] == 0 then [e] else []
    ensures forall d :: d in t.cached <==> d in s.cached && d != e
    ensures forall d :: d in t.lru ==> d in s.lru && d in t.charge && d in s.charge && t.charge[d] == s.charge[d]
  {
    ErasedOut(s, t, e);
    ErasedCharge(s, t, e);
  }

  lemma MadeFields(s: State, m: State, key: Info, charge: nat, caching: bool)
    requires CoreOf(s) && IN_USE in s.links.prev && m == MadeState(s, key, charge, caching)
    ensures m.lru == s.lru && m.deleted == s.deleted && m.cached == s.cached + if caching then {s.nextHandle} else {}
    ensures forall d :: d in s.held ==> d in m.held && m.held[d] == s.held[d]
    ensures forall d :: d in s.lru ==> d in m.charge && d in s.charge && m.charge[d] == s.charge[d]
  {
    NewHandleFresh(s);
  }

  lemma ErasedCharge(s: State, t: State, e: nat)
    requires CoreOf(s) && e in s.cached && Erased(s, t, e)
    ensures forall d :: d in t.lru ==> d in s.lru && d in t.charge && d in s.charge && t.charge[d] == s.charge[d]
  {
    OthersApart(s.links, s.lru, s.inUse);
    RemoveFromElems(s.lru, e);
  }

  lemma EvictedCached(s: State, t: State, n: nat)
    requires CoreOf(s) && CoreOf(t) && Evicted(s, t, n)
    ensures forall d :: d in t.cached <==> d in s.cached && d !in s.lru[..n]
  {
    OthersApart(s.links, s.lru, s.inUse);
    assert s.lru == s.lru[..n] + s.lru[n..];
  }

  lemma FirstInRing(links: Links, lru: seq<nat>)
    requires Ring(links, LRU, lru) && lru != []
    ensures LRU in links.next && links.next[LRU] == lru[0]
  {
    assert Joined(links, LRU, lru, 0);
  }
}
