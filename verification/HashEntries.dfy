/** The contents of a hash table as one list of entries in the order of insertion, and what
    such a list promises: a map, or for each key a first-in first-out queue. */
module HashEntries {
  import opened Common
  import opened HashIndex

  datatype Entry = Entry(key: Key, data: int)

  /** The data of the first entry that matches. */
  function Lookup(es: seq<Entry>, key: Key): Option<int> {
    if es == [] then None
    else if Matches(es[0].key, key) then Some(es[0].data)
    else Lookup(es[1..], key)
  }

  /** The entries without the first that matches. */
  function Without(es: seq<Entry>, key: Key): seq<Entry> {
    if es == [] then []
    else if Matches(es[0].key, key) then es[1..]
    else [es[0]] + Without(es[1..], key)
  }

  /** The entries of bin `i`. */
  function InBin(es: seq<Entry>, t: HashType, bins: nat, i: nat): seq<Entry>
    requires bins > 0
  {
    if es == [] then []
    else if BinOf(t, es[0].key, bins) == i then [es[0]] + InBin(es[1..], t, bins, i)
    else InBin(es[1..], t, bins, i)
  }

  /** The first match at `j`. */
  lemma {:induction false} FirstAt(es: seq<Entry>, key: Key, j: nat)
    requires j <= |es| && (forall k :: 0 <= k < j ==> !Matches(es[k].key, key))
    requires j < |es| ==> Matches(es[j].key, key)
    ensures Lookup(es, key) == if j < |es| then Some(es[j].data) else None
    ensures Without(es, key) == if j < |es| then es[..j] + es[j + 1..] else es
  {
    hide Matches;
    if es != [] && j > 0 {
      assert forall k :: 0 <= k < j - 1 ==> es[1..][k] == es[k + 1];
      FirstAt(es[1..], key, j - 1);
      if j < |es| {
        assert [es[0]] + (es[1..][..j - 1] + es[1..][j..]) == es[..j] + es[j + 1..];
      } else {
        assert [es[0]] + es[1..] == es;
      }
    }
  }

  // ----- Bins -----

  lemma {:induction false} InBinAppend(es: seq<Entry>, e: Entry, t: HashType, bins: nat, i: nat)
    requires bins > 0
    ensures InBin(es + [e], t, bins, i) == InBin(es, t, bins, i) + (if BinOf(t, e.key, bins) == i then [e] else [])
  {
    if es == [] {
      assert es + [e] == [e] && [e][1..] == [];
    } else {
      InBinAppend(es[1..], e, t, bins, i);
      assert (es + [e])[1..] == es[1..] + [e];
    }
  }

  /** A key is looked up in its own bin. */
  lemma {:induction false} LookupInBin(es: seq<Entry>, key: Key, t: HashType, bins: nat)
    requires bins > 0
    ensures Lookup(InBin(es, t, bins, BinOf(t, key, bins)), key) == Lookup(es, key)
  {
    if es != [] {
      var i := BinOf(t, key, bins);
      LookupInBin(es[1..], key, t, bins);
      if BinOf(t, es[0].key, bins) == i {
        assert InBin(es, t, bins, i)[1..] == InBin(es[1..], t, bins, i);
      }
    }
  }

  /** And removed from it, while the other bins keep their entries. */
  lemma {:induction false} WithoutInBin(es: seq<Entry>, key: Key, t: HashType, bins: nat, i: nat)
    requires bins > 0
    ensures InBin(Without(es, key), t, bins, i) ==
            if BinOf(t, key, bins) == i then Without(InBin(es, t, bins, i), key) else InBin(es, t, bins, i)
  {
    if es != [] {
      if !Matches(es[0].key, key) {
        WithoutInBin(es[1..], key, t, bins, i);
        assert Without(es, key)[1..] == Without(es[1..], key);
      }
      if BinOf(t, es[0].key, bins) == i {
        assert InBin(es, t, bins, i)[1..] == InBin(es[1..], t, bins, i);
      }
    }
  }

  // ----- A queue for each key -----

  /** The data stored under a key, oldest first. */
  function Queue(es: seq<Entry>, key: Key): seq<int> {
    if es == [] then []
    else if Matches(es[0].key, key) then [es[0].data] + Queue(es[1..], key)
    else Queue(es[1..], key)
  }

  lemma {:induction false} QueueOfInsert(es: seq<Entry>, e: Entry, key: Key)
    ensures Queue(es + [e], key) == Queue(es, key) + (if Matches(e.key, key) then [e.data] else [])
  {
    if es == [] {
      assert es + [e] == [e] && [e][1..] == [];
    } else {
      QueueOfInsert(es[1..], e, key);
      assert (es + [e])[1..] == es[1..] + [e];
    }
  }

  /** Lookup sees the oldest, removal takes it and leaves the queues of other keys alone. */
  lemma {:induction false} QueueOfRemove(es: seq<Entry>, key: Key, other: Key)
    ensures Lookup(es, key) == if Queue(es, key) == [] then None else Some(Queue(es, key)[0])
    ensures Queue(es, key) != [] ==> Queue(Without(es, key), key) == Queue(es, key)[1..]
    ensures Queue(es, key) == [] ==> Without(es, key) == es
    ensures other != key ==> Queue(Without(es, key), other) == Queue(es, other)
    ensures |Without(es, key)| == if Queue(es, key) == [] then |es| else |es| - 1
  {
    if es != [] && !Matches(es[0].key, key) {
      QueueOfRemove(es[1..], key, other);
      assert Without(es, key)[1..] == Without(es[1..], key);
      assert Queue(es[1..], key) == [] ==> [es[0]] + es[1..] == es;
    }
  }

  // ----- A map, without duplicates -----

  /** No key is stored twice. */
  predicate Unique(es: seq<Entry>) {
    forall i, j :: 0 <= i < j < |es| ==> !Matches(es[i].key, es[j].key)
  }

  function AsMap(es: seq<Entry>): map<Key, int> {
    if es == [] then map[] else AsMap(es[..|es| - 1])[es[|es| - 1].key := es[|es| - 1].data]
  }

  lemma {:induction false} LookupAppend(es: seq<Entry>, e: Entry, key: Key)
    ensures Lookup(es + [e], key) ==
            if Lookup(es, key).Some? then Lookup(es, key) else if Matches(e.key, key) then Some(e.data) else None
  {
    if es == [] {
      assert es + [e] == [e] && [e][1..] == [];
    } else {
      LookupAppend(es[1..], e, key);
      assert (es + [e])[1..] == es[1..] + [e];
    }
  }

  lemma {:induction false} LookupNone(es: seq<Entry>, key: Key)
    ensures Lookup(es, key).None? <==> forall i :: 0 <= i < |es| ==> !Matches(es[i].key, key)
  {
    if es != [] {
      LookupNone(es[1..], key);
      assert forall i :: 0 < i < |es| ==> es[i] == es[1..][i - 1];
      assert forall i :: 0 <= i < |es[1..]| ==> es[1..][i] == es[i + 1];
    }
  }

  /** Lookup agrees with the map. */
  lemma {:induction false} LookupIsMap(es: seq<Entry>, key: Key)
    requires Unique(es) && Proper(key) && forall i :: 0 <= i < |es| ==> Proper(es[i].key)
    ensures Lookup(es, key) == if key in AsMap(es) then Some(AsMap(es)[key]) else None
    decreases |es|
  {
    if es != [] {
      var n := |es| - 1;
      LookupIsMap(es[..n], key);
      LookupAppend(es[..n], es[n], key);
      LookupNone(es[..n], key);
      assert es == es[..n] + [es[n]];
    }
  }

  /** Inserting a new key keeps keys unique and adds it to the map. */
  lemma InsertIsMap(es: seq<Entry>, e: Entry)
    requires Unique(es) && Lookup(es, e.key).None?
    ensures Unique(es + [e]) && AsMap(es + [e]) == AsMap(es)[e.key := e.data]
  {
    LookupNone(es, e.key);
    assert (es + [e])[..|es|] == es;
  }

  /** Removal keeps keys unique. */
  lemma {:induction false} WithoutUnique(es: seq<Entry>, key: Key)
    requires Unique(es)
    ensures Unique(Without(es, key))
    ensures forall x :: x in Without(es, key) ==> x in es
  {
    if es != [] && !Matches(es[0].key, key) {
      WithoutUnique(es[1..], key);
      var w := Without(es[1..], key);
      forall i, j | 0 <= i < j < |Without(es, key)|
        ensures !Matches(Without(es, key)[i].key, Without(es, key)[j].key)
      {
        if i == 0 {
          assert w[j - 1] in es[1..];
        } else {
          assert !Matches(w[i - 1].key, w[j - 1].key);
        }
      }
    }
  }

  lemma {:induction false} MapKeyProper(es: seq<Entry>, key: Key)
    requires (forall i :: 0 <= i < |es| ==> Proper(es[i].key)) && key in AsMap(es)
    ensures Proper(key)
    decreases |es|
  {
    var n := |es| - 1;
    if key != es[n].key {
      MapKeyProper(es[..n], key);
    }
  }

  lemma RemovedLookup(es: seq<Entry>, key: Key, other: Key)
    requires Unique(es)
    ensures Lookup(Without(es, key), other) == if other == key then None else Lookup(es, other)
  {
    QueueOfRemove(es, key, other);
    QueueOfRemove(es, other, key);
    QueueOfRemove(Without(es, key), other, key);
    UniqueQueue(es, key);
  }

  /** Removal takes the key out of the map and nothing else. */
  lemma {:induction false} RemoveIsMap(es: seq<Entry>, key: Key)
    requires Unique(es) && forall i :: 0 <= i < |es| ==> Proper(es[i].key)
    ensures AsMap(Without(es, key)) == AsMap(es) - {key}
  {
    var w := Without(es, key);
    WithoutUnique(es, key);
    forall i | 0 <= i < |w|
      ensures Proper(w[i].key)
    {
      assert w[i] in es;
    }
    forall k: Key
      ensures k in AsMap(w) <==> k in AsMap(es) - {key}
      ensures k in AsMap(w) && k in AsMap(es) ==> AsMap(w)[k] == AsMap(es)[k]
    {
      if k in AsMap(w) {
        MapKeyProper(w, k);
      } else if k in AsMap(es) {
        MapKeyProper(es, k);
      }
      if Proper(k) {
        LookupIsMap(w, k);
        LookupIsMap(es, k);
        RemovedLookup(es, key, k);
      }
    }
  }

  lemma {:induction false} UniqueQueue(es: seq<Entry>, key: Key)
    requires Unique(es)
    ensures |Queue(es, key)| <= 1
  {
    if es != [] {
      UniqueQueue(es[1..], key);
      if Matches(es[0].key, key) {
        LookupNone(es[1..], key);
        QueueOfRemove(es[1..], key, key);
      }
    }
  }

  // ----- Runs -----

  datatype Op = Put(key: Key, data: int) | Take(key: Key)

  /** What insert and remove do to the entries. */
  function Step(es: seq<Entry>, op: Op, duplicates: bool): seq<Entry> {
    match op
    case Put(key, data) => if !duplicates && Lookup(es, key).Some? then es else es + [Entry(key, data)]
    case Take(key) => Without(es, key)
  }

  function Run(ops: seq<Op>, duplicates: bool): seq<Entry> {
    if ops == [] then [] else Step(Run(ops[..|ops| - 1], duplicates), ops[|ops| - 1], duplicates)
  }

  /** The same run on a plain map. */
  function MapRun(ops: seq<Op>): map<Key, int> {
    if ops == [] then map[]
    else
      var m := MapRun(ops[..|ops| - 1]);
      match ops[|ops| - 1]
      case Put(key, data) => if key in m then m else m[key := data]
      case Take(key) => m - {key}
  }

  /** The same run on a queue for one key. */
  function QueueRun(ops: seq<Op>, key: Key): seq<int> {
    if ops == [] then []
    else
      var q := QueueRun(ops[..|ops| - 1], key);
      match ops[|ops| - 1]
      case Put(k, data) => if k == key then q + [data] else q
      case Take(k) => if k == key && q != [] then q[1..] else q
  }

  predicate ProperOps(ops: seq<Op>) {
    forall i :: 0 <= i < |ops| ==> Proper(ops[i].key)
  }

  /** Without duplicates, every run leaves the map that a plain map would hold. */
  lemma {:induction false} RunIsMap(ops: seq<Op>)
    requires ProperOps(ops)
    ensures var es := Run(ops, false);
            && Unique(es) && (forall i :: 0 <= i < |es| ==> Proper(es[i].key))
            && AsMap(es) == MapRun(ops)
    decreases |ops|
  {
    if ops != [] {
      var n := |ops| - 1;
      var es, op := Run(ops[..n], false), ops[n];
      RunIsMap(ops[..n]);
      LookupIsMap(es, op.key);
      if op.Put? {
        if Lookup(es, op.key).None? {
          InsertIsMap(es, Entry(op.key, op.data));
        }
      } else {
        WithoutUnique(es, op.key);
        RemoveIsMap(es, op.key);
        forall i | 0 <= i < |Without(es, op.key)|
          ensures Proper(Without(es, op.key)[i].key)
        {
          assert Without(es, op.key)[i] in es;
        }
      }
    }
  }

  /** With duplicates, every run leaves for each key the queue that a plain queue would hold. */
  lemma {:induction false} RunIsQueue(ops: seq<Op>, key: Key)
    requires ProperOps(ops) && Proper(key)
    ensures Queue(Run(ops, true), key) == QueueRun(ops, key)
    decreases |ops|
  {
    if ops != [] {
      var n := |ops| - 1;
      var es, op := Run(ops[..n], true), ops[n];
      RunIsQueue(ops[..n], key);
      if op.Put? {
        QueueOfInsert(es, Entry(op.key, op.data), key);
      } else {
        QueueOfRemove(es, op.key, key);
      }
    }
  }
}
