/** Histories kept per identity, and which one goes when a book is full: the profiles and the
    issuer rates. (src/behaviour.py:240-413) */
module Books {
  import opened Eviction
  import opened Lookup

  type Key = nat

  /** How many sweeps or windows an identity has been watched over. */
  datatype Entry = Entry(key: Key, seen: nat)

  function Find(entries: seq<Entry>, key: Key): (i: nat)
    ensures i <= |entries| && (i < |entries| ==> entries[i].key == key)
    ensures forall k :: 0 <= k < i ==> entries[k].key != key
  {
    FindBy(entries, (e: Entry) => e.key, key)
  }

  predicate OncePerKey(entries: seq<Entry>) {
    forall i, j :: 0 <= i < j < |entries| ==> entries[i].key != entries[j].key
  }

  /** The first of the least established among the first `n`. */
  function Least(entries: seq<Entry>, n: nat): (i: nat)
    requires 0 < n <= |entries|
    ensures i < n
    ensures forall k :: 0 <= k < n ==> entries[i].seen <= entries[k].seen
    ensures forall k :: 0 <= k < i ==> entries[i].seen < entries[k].seen
  {
    if n == 1 then 0
    else
      var i := Least(entries, n - 1);
      if entries[n - 1].seen < entries[i].seen then n - 1 else i
  }

  /** A newcomer filed under `seen`; in a full book the least established other entry makes
      room for it. */
  function Admitted(entries: seq<Entry>, key: Key, seen: nat, max: nat): seq<Entry> {
    if entries != [] && |entries| >= max then RemoveAt(entries, Least(entries, |entries|)) + [Entry(key, seen)]
    else entries + [Entry(key, seen)]
  }

  class Book {
    const max: nat
    /** What a first observation already counts for: nothing in a profile, one window for an
        issuer. */
    const first: nat
    var entries: seq<Entry>

    ghost predicate Valid()
      reads this
    {
      OncePerKey(entries) && |entries| <= max && max >= 1
    }

    constructor (max: int, first: nat)
      ensures Valid() && entries == [] && this.max == (if max > 1 then max else 1) && this.first == first
    {
      this.max, this.first := if max > 1 then max else 1, first;
      entries := [];
    }

    /** One observation of an identity: filed if it is new; if not, one more behind it, unless
        nothing happened since the last, which only a profile can tell. */
    method Observe(key: Key, counts: bool)
      requires Valid()
      modifies `entries
      ensures Valid()
      ensures var i := Find(old(entries), key);
              entries == if i == |old(entries)| then Admitted(old(entries), key, first, max)
                         else if counts then old(entries)[i := Entry(key, old(entries)[i].seen + 1)]
                         else old(entries)
    {
      hide Find, Least, Admitted, RemoveAt, OncePerKey;
      var i := Find(entries, key);
      if i < |entries| {
        if !counts {
          return;
        }
        CountedKeeps(entries, i);
        entries := entries[i := Entry(key, entries[i].seen + 1)];
        return;
      }
      AdmittedKeeps(entries, key, first, max);
      AppendKeeps(entries, key, 0);
      EvictAfter(entries, key, first, max);
      entries := entries + [Entry(key, 0)];
      Evict(key);
      entries := entries[..|entries| - 1] + [Entry(key, first)];
    }

    /** Nothing is remembered of this identity, and everything of the others, in their order. */
    method Forget(key: Key)
      requires Valid()
      modifies `entries
      ensures Valid() && forall e :: e in entries <==> e in old(entries) && e.key != key
      ensures var i := Find(old(entries), key);
              entries == if i < |old(entries)| then RemoveAt(old(entries), i) else old(entries)
    {
      hide Find;
      var i := Find(entries, key);
      if i < |entries| {
        RemoveKeeps(entries, i);
        WithoutKey(entries, i);
        entries := RemoveAt(entries, i);
      }
    }

    /** Down to the bound, at the cost of the entry observed least; the newcomer is spared. */
    method Evict(protect: Key)
      requires entries != [] && entries[|entries| - 1].key == protect && OncePerKey(entries)
      requires 1 <= max && |entries| <= max + 1
      modifies `entries
      ensures var n := |old(entries)| - 1;
              entries == if |old(entries)| > max then RemoveAt(old(entries), Least(old(entries), n)) else old(entries)
    {
      if |entries| > max {
        var n := |entries| - 1;
        var victim := 0;
        for k := 1 to n
          invariant victim == Least(entries, k) && entries == old(entries)
        {
          if entries[k].seen < entries[victim].seen {
            victim := k;
          }
        }
        entries := RemoveAt(entries, victim);
      }
    }
  }

  lemma {:induction false} LeastOfFront(entries: seq<Entry>, e: Entry, n: nat)
    requires 0 < n <= |entries|
    ensures Least(entries + [e], n) == Least(entries, n)
  {
    if n > 1 {
      LeastOfFront(entries, e, n - 1);
    }
  }

  lemma CountedKeeps(entries: seq<Entry>, i: nat)
    requires OncePerKey(entries) && i < |entries|
    ensures OncePerKey(entries[i := Entry(entries[i].key, entries[i].seen + 1)])
  {
  }

  lemma AppendKeeps(entries: seq<Entry>, key: Key, seen: nat)
    requires OncePerKey(entries) && Find(entries, key) == |entries|
    ensures OncePerKey(entries + [Entry(key, seen)])
  {
    hide Find;
  }

  lemma RemoveKeeps(entries: seq<Entry>, i: nat)
    requires OncePerKey(entries) && i < |entries|
    ensures OncePerKey(RemoveAt(entries, i))
  {
  }

  lemma WithoutKey(entries: seq<Entry>, i: nat)
    requires OncePerKey(entries) && i < |entries|
    ensures forall e :: e in RemoveAt(entries, i) <==> e in entries && e.key != entries[i].key
  {
    var less := RemoveAt(entries, i);
    forall e | e in entries && e.key != entries[i].key ensures e in less {
      var k :| 0 <= k < |entries| && entries[k] == e;
      assert less[if k < i then k else k - 1] == e;
    }
    forall e | e in less ensures e in entries && e.key != entries[i].key {
      var k :| 0 <= k < |less| && less[k] == e;
      assert entries[if k < i then k else k + 1] == e;
    }
  }

  lemma AdmittedKeeps(entries: seq<Entry>, key: Key, seen: nat, max: nat)
    requires OncePerKey(entries) && |entries| <= max && max >= 1 && Find(entries, key) == |entries|
    ensures OncePerKey(Admitted(entries, key, seen, max)) && |Admitted(entries, key, seen, max)| <= max
  {
    hide Find, Least, OncePerKey;
    AppendKeeps(entries, key, seen);
    if |entries| >= max {
      var i := Least(entries, |entries|);
      RemoveKeeps(entries + [Entry(key, seen)], i);
      assert RemoveAt(entries + [Entry(key, seen)], i) == RemoveAt(entries, i) + [Entry(key, seen)];
    }
  }

  /** Filing first, evicting among the others after, and counting the newcomer last. */
  lemma EvictAfter(entries: seq<Entry>, key: Key, seen: nat, max: nat)
    requires |entries| <= max && max >= 1
    ensures var grown := entries + [Entry(key, 0)];
            var kept := if |grown| > max then RemoveAt(grown, Least(grown, |grown| - 1)) else grown;
            kept != [] && Admitted(entries, key, seen, max) == kept[..|kept| - 1] + [Entry(key, seen)]
  {
    hide Least;
    if |entries| >= max {
      LeastOfFront(entries, Entry(key, 0), |entries|);
      var i := Least(entries, |entries|);
      assert RemoveAt(entries + [Entry(key, 0)], i) == RemoveAt(entries, i) + [Entry(key, 0)];
    }
  }

  // ------------------------------------------------------------------ floods of newcomers

  /** Identities watched for longer than a newcomer. */
  function Established(entries: seq<Entry>, first: nat): nat {
    if entries == [] then 0
    else Established(entries[..|entries| - 1], first) + if entries[|entries| - 1].seen > first then 1 else 0
  }

  lemma {:induction false} EstablishedWithout(entries: seq<Entry>, i: nat, first: nat)
    requires i < |entries|
    ensures Established(RemoveAt(entries, i), first)
         == Established(entries, first) - if entries[i].seen > first then 1 else 0
  {
    var front := entries[..|entries| - 1];
    if i == |entries| - 1 {
      assert RemoveAt(entries, i) == front;
    } else {
      var less := RemoveAt(entries, i);
      assert less[..|less| - 1] == RemoveAt(front, i);
      EstablishedWithout(front, i, first);
    }
  }

  lemma {:induction false} AllEstablished(entries: seq<Entry>, first: nat)
    ensures Established(entries, first) <= |entries|
    ensures Established(entries, first) == |entries| <==> forall k :: 0 <= k < |entries| ==> entries[k].seen > first
  {
    if entries != [] {
      AllEstablished(entries[..|entries| - 1], first);
    }
  }

  /** One newcomer costs an established entry exactly when the book is full of them. */
  lemma NewcomerCost(entries: seq<Entry>, key: Key, first: nat, max: nat)
    requires |entries| <= max && max >= 1
    ensures Established(Admitted(entries, key, first, max), first)
         == Established(entries, first) - if Established(entries, first) == max then 1 else 0
  {
    hide Least;
    AllEstablished(entries, first);
    var r := Admitted(entries, key, first, max);
    assert r[..|r| - 1] + [Entry(key, first)] == r;
    if entries != [] && |entries| >= max {
      EstablishedWithout(entries, Least(entries, |entries|), first);
      assert r[..|r| - 1] == RemoveAt(entries, Least(entries, |entries|));
    } else {
      assert r[..|r| - 1] == entries;
    }
  }

  function Flood(entries: seq<Entry>, keys: seq<Key>, first: nat, max: nat): seq<Entry> {
    if keys == [] then entries
    else Admitted(Flood(entries, keys[..|keys| - 1], first, max), keys[|keys| - 1], first, max)
  }

  /** However many identities show up once, together they cost the book at most one history
      longer than theirs, and none unless every one it held was. */
  lemma {:induction false} FloodCostsOne(entries: seq<Entry>, keys: seq<Key>, first: nat, max: nat)
    requires |entries| <= max && max >= 1
    ensures |Flood(entries, keys, first, max)| <= max
    ensures Established(Flood(entries, keys, first, max), first)
         == Established(entries, first) - if keys != [] && Established(entries, first) == max then 1 else 0
  {
    hide Least;
    if keys != [] {
      var front := keys[..|keys| - 1];
      FloodCostsOne(entries, front, first, max);
      NewcomerCost(Flood(entries, front, first, max), keys[|keys| - 1], first, max);
    }
  }
}
