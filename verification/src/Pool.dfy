/**
 The fixed-size pools of memp.c: a free list through the elements themselves, and the check
 that it does not run in a circle.
 */
module Pool {
  import opened Common

  type Ptr = nat

  /** The next fields of all elements of a pool. */
  type Links = map<Ptr, Option<Ptr>>

  /** Every next field leads to an element of the pool. */
  ghost predicate Closed(links: Links) {
    forall p | p in links :: links[p].Some? ==> links[p].value in links
  }

  ghost predicate Within(links: Links, q: Option<Ptr>) {
    q.Some? ==> q.value in links
  }

  function Next(links: Links, q: Option<Ptr>): Option<Ptr> {
    if q.Some? && q.value in links then links[q.value] else None
  }

  /** Where i steps along next lead. */
  function At(links: Links, q: Option<Ptr>, i: nat): Option<Ptr> {
    if i == 0 then q else Next(links, At(links, q, i - 1))
  }

  /** The list comes to an end. */
  ghost predicate Ends(links: Links, q: Option<Ptr>) {
    exists i: nat :: At(links, q, i) == None
  }

  // ---------------------------------------------------------------------
  // Walking

  lemma {:induction false} AtAdds(links: Links, q: Option<Ptr>, i: nat, j: nat)
    ensures At(links, q, i + j) == At(links, At(links, q, i), j)
    decreases j
  {
    if j > 0 { AtAdds(links, q, i, j - 1); }
  }

  lemma {:induction false} AtWithin(links: Links, q: Option<Ptr>, i: nat)
    requires Closed(links) && Within(links, q)
    ensures Within(links, At(links, q, i))
  {
    if i > 0 { AtWithin(links, q, i - 1); }
  }

  lemma {:induction false} NoneStays(links: Links, i: nat)
    ensures At(links, None, i) == None
  {
    if i > 0 { NoneStays(links, i - 1); }
  }

  /** Past the end there is nothing. */
  lemma {:induction false} Beyond(links: Links, q: Option<Ptr>, m: nat, i: nat)
    requires At(links, q, m) == None && m <= i
    ensures At(links, q, i) == None
  {
    AtAdds(links, q, m, i - m);
    NoneStays(links, i - m);
  }

  // ---------------------------------------------------------------------
  // A place reached twice

  function Times(c: nat, n: nat): nat {
    if c == 0 then 0 else Times(c - 1, n) + n
  }

  lemma {:induction false} TimesAtLeast(c: nat, n: nat)
    requires n > 0
    ensures Times(c, n) >= c
  {
    if c > 0 { TimesAtLeast(c - 1, n); }
  }

  /** If i and j steps lead to the same place, so do any further steps, and any number of rounds
      of j - i steps in between. */
  lemma {:induction false} Rounds(links: Links, q: Option<Ptr>, i: nat, j: nat, n: nat, c: nat)
    requires i < j && At(links, q, i) == At(links, q, j) && n >= i
    ensures At(links, q, n + Times(c, j - i)) == At(links, q, n)
    decreases c
  {
    hide At;
    if c > 0 {
      Rounds(links, q, i, j, n, c - 1);
      var m := n + Times(c - 1, j - i);
      AtAdds(links, q, i, m - i);
      AtAdds(links, q, j, m - i);
    }
  }

  /** A walk that comes back to a place never ends. */
  lemma {:induction false} RepeatNeverEnds(links: Links, q: Option<Ptr>, i: nat, j: nat)
    requires i < j && At(links, q, i) == At(links, q, j) != None
    ensures !Ends(links, q)
  {
    forall m: nat ensures At(links, q, m) != None { GoesOn(links, q, i, j, m); }
  }

  lemma {:induction false} GoesOn(links: Links, q: Option<Ptr>, i: nat, j: nat, m: nat)
    requires i < j && At(links, q, i) == At(links, q, j) != None
    ensures At(links, q, m) != None
    decreases m
  {
    hide At;
    if m <= j {
      if At(links, q, m) == None { Beyond(links, q, m, j); }
    } else {
      GoesOn(links, q, i, j, m - (j - i));
      AtAdds(links, q, i, m - j);
      AtAdds(links, q, j, m - j);
    }
  }

  /** The places the first n steps lead to. */
  ghost function Places(links: Links, q: Option<Ptr>, n: nat): set<Ptr>
    requires forall i | 0 <= i < n :: At(links, q, i).Some?
  {
    if n == 0 then {} else Places(links, q, n - 1) + {At(links, q, n - 1).value}
  }

  lemma {:induction false} PlacesHas(links: Links, q: Option<Ptr>, n: nat, p: Ptr)
    requires forall i | 0 <= i < n :: At(links, q, i).Some?
    ensures p in Places(links, q, n) ==> exists i :: 0 <= i < n && At(links, q, i) == Some(p)
  {
    if n > 0 { PlacesHas(links, q, n - 1, p); }
  }

  lemma {:induction false} PlacesWithin(links: Links, q: Option<Ptr>, n: nat)
    requires Closed(links) && Within(links, q) && forall i | 0 <= i < n :: At(links, q, i).Some?
    ensures Places(links, q, n) <= links.Keys
  {
    if n > 0 {
      PlacesWithin(links, q, n - 1);
      AtWithin(links, q, n - 1);
    }
  }

  /** Either n steps lead to n places, or some place is reached twice. */
  lemma {:induction false} NewOrRepeat(links: Links, q: Option<Ptr>, n: nat) returns (found: bool, i: nat, j: nat)
    requires forall i | 0 <= i < n :: At(links, q, i).Some?
    ensures found ==> i < j && At(links, q, i) == At(links, q, j)
    ensures !found ==> |Places(links, q, n)| == n
  {
    hide At;
    found, i, j := false, 0, 0;
    if n > 0 {
      found, i, j := NewOrRepeat(links, q, n - 1);
      if !found {
        var p := At(links, q, n - 1).value;
        if p in Places(links, q, n - 1) {
          PlacesHas(links, q, n - 1, p);
          i :| 0 <= i < n - 1 && At(links, q, i) == Some(p);
          found, j := true, n - 1;
        }
      }
    }
  }

  /** A list that does not end comes back to some place. */
  lemma {:induction false} EndlessRepeats(links: Links, q: Option<Ptr>) returns (i: nat, j: nat)
    requires Closed(links) && Within(links, q) && !Ends(links, q)
    ensures i < j && At(links, q, i) == At(links, q, j)
  {
    var n := |links.Keys| + 1;
    forall k: nat ensures At(links, q, k).Some? { assert At(links, q, k) != None; }
    var found;
    found, i, j := NewOrRepeat(links, q, n);
    if !found {
      PlacesWithin(links, q, n);
      SubsetSize(Places(links, q, n), links.Keys);
      assert false;
    }
  }

  /** The slow walk and the fast one, which is one step ahead at the start, then meet. */
  lemma {:induction false} WalksMeet(links: Links, q: Option<Ptr>) returns (n: nat)
    requires Closed(links) && Within(links, q) && !Ends(links, q)
    ensures At(links, q, n) == At(links, q, 2 * n + 1)
  {
    var i, j := EndlessRepeats(links, q);
    var round := j - i;
    TimesAtLeast(i + 1, round);
    n := Times(i + 1, round) - 1;
    Rounds(links, q, i, j, n, i + 1);
  }

  // ---------------------------------------------------------------------
  // memp_sanity

  /** How far the check goes at most. */
  lemma {:induction false} Bound(links: Links, q: Option<Ptr>) returns (n: nat)
    requires Closed(links) && Within(links, q)
    ensures At(links, q, n) == None || At(links, q, n) == At(links, q, 2 * n + 1)
  {
    if Ends(links, q) {
      n :| At(links, q, n) == None;
    } else {
      n := WalksMeet(links, q);
    }
  }

  /** memp_sanity: on any links whatever, it stops, and says whether the list ends. */
  method Sanity(links: Links, tab: Option<Ptr>) returns (ok: bool)
    requires Closed(links) && Within(links, tab)
    ensures ok <==> Ends(links, tab)
  {
    hide At, Ends;
    var t := tab;
    Steps(links, tab, 0);
    if t.Some? {
      ghost var bound := Bound(links, tab);
      ghost var i: nat := 0;
      var h := links[t.value];
      AtWithin(links, tab, 1);
      while t.Some? && h.Some?
        invariant t == At(links, tab, i) && h == At(links, tab, 2 * i + 1)
        invariant NotMet(links, tab, i)
        invariant Within(links, t) && Within(links, h)
        decreases bound - i
      {
        if t == h {
          RepeatNeverEnds(links, tab, i, 2 * i + 1);
          return false;
        }
        StillGoing(links, tab, bound, i);
        Steps(links, tab, i);
        AtWithin(links, tab, 2 * i + 2);
        AtWithin(links, tab, i + 1);
        AtWithin(links, tab, 2 * i + 3);
        t := links[t.value];
        h := if links[h.value].Some? then links[links[h.value].value] else None;
        i := i + 1;
      }
      EndSeen(links, tab, if t.None? then i else 2 * i + 1);
    } else {
      EndSeen(links, tab, 0);
    }
    ok := true;
  }

  /** The walks have been at different places so far. */
  ghost predicate NotMet(links: Links, q: Option<Ptr>, i: nat) {
    forall k | 0 <= k < i :: At(links, q, k) != None && At(links, q, k) != At(links, q, 2 * k + 1)
  }

  lemma {:induction false} Steps(links: Links, q: Option<Ptr>, i: nat)
    ensures At(links, q, 0) == q && At(links, q, 1) == Next(links, q)
    ensures At(links, q, i + 1) == Next(links, At(links, q, i))
    ensures At(links, q, 2 * i + 2) == Next(links, At(links, q, 2 * i + 1))
    ensures At(links, q, 2 * i + 3) == Next(links, At(links, q, 2 * i + 2))
  {
  }

  lemma {:induction false} EndSeen(links: Links, q: Option<Ptr>, i: nat)
    requires At(links, q, i) == None
    ensures Ends(links, q)
  {
  }

  lemma {:induction false} StillGoing(links: Links, q: Option<Ptr>, bound: nat, i: nat)
    requires At(links, q, bound) == None || At(links, q, bound) == At(links, q, 2 * bound + 1)
    requires At(links, q, i) != None && At(links, q, i) != At(links, q, 2 * i + 1)
    requires NotMet(links, q, i)
    ensures i < bound
  {
    if bound <= i && At(links, q, bound) == None {
      Beyond(links, q, bound, i);
    }
  }

  // ---------------------------------------------------------------------
  // The free list

  /** tab heads the list of these elements. */
  ghost predicate Listed(links: Links, tab: Option<Ptr>, list: seq<Ptr>) {
    tab == Head(list, 0) && Distinct(list) && links.Keys == Members(list) && Along(links, list)
  }

  ghost predicate Distinct(list: seq<Ptr>) {
    forall i, j | 0 <= i < j < |list| :: list[i] != list[j]
  }

  ghost function Members(list: seq<Ptr>): set<Ptr> {
    set p | p in list
  }

  ghost predicate Along(links: Links, list: seq<Ptr>) {
    forall i | 0 <= i < |list| :: AlongAt(links, list, i)
  }

  ghost predicate AlongAt(links: Links, list: seq<Ptr>, i: nat)
    requires i < |list|
  {
    list[i] in links && links[list[i]] == Head(list, i + 1)
  }

  function Head(list: seq<Ptr>, i: nat): Option<Ptr> {
    if i < |list| then Some(list[i]) else None
  }

  lemma {:induction false} ListedAt(links: Links, tab: Option<Ptr>, list: seq<Ptr>, i: nat)
    requires Listed(links, tab, list) && i <= |list|
    ensures At(links, tab, i) == Head(list, i)
  {
    if i > 0 {
      ListedAt(links, tab, list, i - 1);
      assert AlongAt(links, list, i - 1);
    }
  }

  lemma {:induction false} ListedIsClosed(links: Links, tab: Option<Ptr>, list: seq<Ptr>)
    requires Listed(links, tab, list)
    ensures Closed(links) && Within(links, tab) && Ends(links, tab)
  {
    forall p | p in links ensures links[p].Some? ==> links[p].value in links {
      var i :| 0 <= i < |list| && list[i] == p;
      assert AlongAt(links, list, i);
    }
    ListedAt(links, tab, list, |list|);
  }

  /** Putting an element in front of the list. */
  lemma {:induction false} NotListed(links: Links, tab: Option<Ptr>, list: seq<Ptr>, p: Ptr)
    requires Listed(links, tab, list) && p !in links
    ensures p !in list
  {
    assert p !in Members(list);
  }

  lemma {:induction false} PushListed(links: Links, tab: Option<Ptr>, list: seq<Ptr>, p: Ptr)
    requires Listed(links, tab, list) && p !in list
    ensures Listed(links[p := tab], Some(p), [p] + list)
  {
    var links', list' := links[p := tab], [p] + list;
    assert Members(list') == Members(list) + {p};
    forall i | 0 <= i < |list'| ensures AlongAt(links', list', i) {
      if i > 0 { assert AlongAt(links, list, i - 1); }
    }
  }

  /** An element that is in the list already closes it to a circle. */
  lemma {:induction false} PushTwice(links: Links, tab: Option<Ptr>, list: seq<Ptr>, p: Ptr)
    requires Listed(links, tab, list) && p in list
    ensures Closed(links[p := tab]) && !Ends(links[p := tab], Some(p))
  {
    var links' := links[p := tab];
    ListedIsClosed(links, tab, list);
    var j :| 0 <= j < |list| && list[j] == p;
    Again(links, tab, list, p, j, j);
    RepeatNeverEnds(links', Some(p), 0, j + 1);
  }

  lemma {:induction false} Again(links: Links, tab: Option<Ptr>, list: seq<Ptr>, p: Ptr, j: nat, k: nat)
    requires Listed(links, tab, list) && k <= j < |list| && list[j] == p
    ensures At(links[p := tab], Some(p), k + 1) == Some(list[k])
    decreases k
  {
    var links' := links[p := tab];
    if k > 0 {
      Again(links, tab, list, p, j, k - 1);
      assert AlongAt(links, list, k - 1) && list[k - 1] != p;
    } else {
      assert At(links', Some(p), 0) == Some(p);
    }
  }

  /** A pool: the elements in use are the program's, and their memory holds no next field. */
  class Memp {
    var links: Links
    var tab: Option<Ptr>
    ghost var list: seq<Ptr>
    ghost var used: set<Ptr>
    ghost const all: set<Ptr>

    /** Each element is either in use or once on the free list. */
    ghost predicate Valid()
      reads this
    {
      Listed(links, tab, list) && links.Keys + used == all && links.Keys !! used
    }

    /** memp_init_pool: element i lies i strides above the base. */
    constructor (num: nat)
      ensures Valid() && used == {} && all == UpTo(num) && |list| == num
    {
      links, tab, list, used := map[], None, [], {};
      all := UpTo(num);
      new;
      hide Along, Distinct;
      NothingListed(links);
      for i := 0 to num
        invariant Listed(links, tab, list) && |list| == i && used == {}
        invariant links.Keys == UpTo(i)
      {
        NotListed(links, tab, list, i);
        PushListed(links, tab, list, i);
        links := links[i := tab];
        tab := Some(i);
        list := [i] + list;
      }
    }

    /** memp_malloc: the head of the free list, or NULL exactly if everything is in use. */
    method Malloc() returns (p: Option<Ptr>)
      requires Valid()
      modifies this
      ensures Valid()
      ensures p.None? <==> old(used) == all
      ensures p.None? ==> list == old(list) && used == old(used)
      ensures p.Some? ==> p.value !in old(used) && old(list) == [p.value] + list && used == old(used) + {p.value}
    {
      hide Along, Distinct;
      p := tab;
      if p.Some? {
        PopListed(links, tab, list);
        hide Listed;
        tab := links[p.value];
        links := links - {p.value};
        list := list[1..];
        used := used + {p.value};
      } else {
        assert links.Keys == {};
      }
    }

    /** memp_free with the check: it fails exactly if the element was free already. */
    method Free(p: Ptr) returns (sane: bool)
      requires Valid() && p in all
      modifies this
      ensures sane <==> p in old(used)
      ensures sane ==> Valid() && list == [p] + old(list) && used == old(used) - {p}
    {
      if p in used {
        PushListed(links, tab, list, p);
        ListedIsClosed(links[p := tab], Some(p), [p] + list);
      } else {
        PushTwice(links, tab, list, p);
      }
      links := links[p := tab];
      tab := Some(p);
      sane := Sanity(links, tab);
      list := [p] + list;
      used := used - {p};
    }
  }

  lemma {:induction false} NothingListed(links: Links)
    requires links == map[]
    ensures Listed(links, None, [])
  {
  }

  lemma {:induction false} PopListed(links: Links, tab: Option<Ptr>, list: seq<Ptr>)
    requires Listed(links, tab, list) && list != []
    ensures list[0] in links && Listed(links - {list[0]}, links[list[0]], list[1..])
  {
    var p, links', list' := list[0], links - {list[0]}, list[1..];
    assert list == [p] + list';
    assert AlongAt(links, list, 0);
    assert Distinct(list') && p !in list';
    assert Members(list) == Members(list') + {p};
    forall i | 0 <= i < |list'| ensures AlongAt(links', list', i) {
      assert AlongAt(links, list, i + 1);
    }
  }
}
