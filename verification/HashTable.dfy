/** The chained hash table of platform/common/src/mxHashTable.cpp: each bin is a cycle of
    elements linked both ways, entered at the oldest. */
module HashTable {
  import opened Common
  import opened Bits
  import opened HashIndex
  import opened HashEntries

  class HashElement {
    var pPrev: HashElement
    var pNext: HashElement
    const key: Key
    const data: int

    constructor (key: Key, data: int)
      ensures this.key == key && this.data == data && pPrev == this && pNext == this
    {
      this.key := key;
      this.data := data;
      pPrev := this;
      pNext := this;
    }
  }

  function After(list: seq<HashElement>, j: nat): HashElement
    requires j < |list|
  {
    if j + 1 < |list| then list[j + 1] else list[0]
  }

  function Before(list: seq<HashElement>, j: nat): HashElement
    requires j < |list|
  {
    if j > 0 then list[j - 1] else list[|list| - 1]
  }

  predicate Differ(list: seq<HashElement>, j: nat, k: nat)
    requires j < |list| && k < |list|
  {
    list[j] != list[k]
  }

  ghost predicate Linked(list: seq<HashElement>, j: nat)
    requires j < |list|
    reads list[j]
  {
    list[j].pNext == After(list, j) && list[j].pPrev == Before(list, j)
  }

  /** The elements of `list` are distinct and linked in a cycle. */
  ghost predicate Cycle(list: seq<HashElement>)
    reads list
  {
    && (forall j: nat, k: nat {:trigger Differ(list, j, k)} :: j < k < |list| ==> Differ(list, j, k))
    && (forall j: nat {:trigger Linked(list, j)} :: j < |list| ==> Linked(list, j))
  }

  lemma AllDiffer(list: seq<HashElement>)
    requires Cycle(list)
    ensures forall j, k :: 0 <= j < k < |list| ==> list[j] != list[k]
  {
    forall j: nat, k: nat | j < k < |list|
      ensures list[j] != list[k]
    {
      assert Differ(list, j, k);
    }
  }

  lemma AllLinked(list: seq<HashElement>)
    requires Cycle(list)
    ensures forall j :: 0 <= j < |list| ==> list[j].pNext == After(list, j) && list[j].pPrev == Before(list, j)
  {
    forall j: nat | j < |list|
      ensures list[j].pNext == After(list, j) && list[j].pPrev == Before(list, j)
    {
      assert Linked(list, j);
    }
  }

  function Entries(list: seq<HashElement>): seq<Entry> {
    if list == [] then [] else [Entry(list[0].key, list[0].data)] + Entries(list[1..])
  }

  lemma {:induction false} EntriesAppend(list: seq<HashElement>, e: HashElement)
    ensures Entries(list + [e]) == Entries(list) + [Entry(e.key, e.data)]
  {
    if list == [] {
      assert list + [e] == [e] && [e][1..] == [];
    } else {
      EntriesAppend(list[1..], e);
      assert (list + [e])[1..] == list[1..] + [e];
    }
  }

  lemma {:induction false} EntriesAt(list: seq<HashElement>)
    ensures |Entries(list)| == |list|
    ensures forall k :: 0 <= k < |list| ==> Entries(list)[k] == Entry(list[k].key, list[k].data)
  {
    if list != [] {
      EntriesAt(list[1..]);
    }
  }

  lemma EntriesSplit(list: seq<HashElement>, j: nat)
    requires j < |list|
    ensures |Entries(list)| == |list|
    ensures Entries(list[..j] + list[j + 1..]) == Entries(list)[..j] + Entries(list)[j + 1..]
  {
    EntriesAt(list);
    EntriesAt(list[..j] + list[j + 1..]);
  }

  lemma InsertIsMapIf(es: seq<Entry>, e: Entry, unique: bool)
    requires unique ==> Unique(es) && Lookup(es, e.key).None?
    ensures unique ==> Unique(es + [e])
  {
    if unique {
      InsertIsMap(es, e);
    }
  }

  /** `e` is linked in front of the head, which is behind the last. */
  method LinkLast(ghost list: seq<HashElement>, pOld: HashElement, pEle: HashElement)
    requires list != [] && list[0] == pOld && Cycle(list) && pEle !in list
    modifies pEle, pOld, pOld.pPrev
    ensures Cycle(list + [pEle])
  {
    ghost var n := |list|;
    ghost var linked := list + [pEle];
    AllDiffer(list);
    AllLinked(list);
    assert pOld.pPrev == list[n - 1];
    pEle.pNext := pOld;
    pEle.pPrev := pOld.pPrev;
    pOld.pPrev.pNext := pEle;
    pOld.pPrev := pEle;
    forall j | 0 <= j < |linked|
      ensures linked[j].pNext == After(linked, j) && linked[j].pPrev == Before(linked, j)
    {
      if j < n {
        assert linked[j] == list[j];
      }
    }
  }

  /** The cycle without element `j`, once its neighbours are linked to each other. */
  lemma {:induction false} Relinked(list: seq<HashElement>, j: nat, rest: seq<HashElement>)
    requires j < |list| && |list| > 1 && rest == list[..j] + list[j + 1..]
    requires forall k, m :: 0 <= k < m < |list| ==> list[k] != list[m]
    requires forall k :: 0 <= k < |list| && k != j ==>
               && list[k].pNext == (if After(list, k) == list[j] then After(list, j) else After(list, k))
               && list[k].pPrev == (if Before(list, k) == list[j] then Before(list, j) else Before(list, k))
    ensures Cycle(rest)
  {
    forall k | 0 <= k < |rest|
      ensures rest[k].pNext == After(rest, k) && rest[k].pPrev == Before(rest, k)
    {
      assert rest[k] == if k < j then list[k] else list[k + 1];
    }
  }

  /** The destructor: the element leaves its cycle. */
  method Unlink(ghost list: seq<HashElement>, ghost j: nat, e: HashElement)
    requires j < |list| && list[j] == e && Cycle(list)
    modifies e.pPrev, e.pNext
    ensures Cycle(list[..j] + list[j + 1..])
  {
    AllDiffer(list);
    AllLinked(list);
    assert e.pPrev == Before(list, j) && e.pNext == After(list, j);
    if e.pPrev != e {
      e.pPrev.pNext := e.pNext;
      e.pNext.pPrev := e.pPrev;
      Relinked(list, j, list[..j] + list[j + 1..]);
    } else {
      assert |list| == 1;
    }
  }

  /** A bin: its head and its cycle, which holds the entries `es` of bin `i`. */
  ghost predicate BinSound(head: HashElement?, list: seq<HashElement>, es: seq<Entry>, t: HashType, bins: nat,
                           i: nat)
    requires bins > 0
    reads list
    ensures BinSound(head, list, es, t, bins, i) ==> head == (if list == [] then null else list[0]) && Cycle(list)
    ensures BinSound(head, list, es, t, bins, i) ==>
              Entries(list) == es && (forall e :: e in list ==> Accepts(t, e.key) && BinOf(t, e.key, bins) == i)
  {
    && head == (if list == [] then null else list[0]) && Cycle(list) && Entries(list) == es
    && (forall e :: e in list ==> Accepts(t, e.key) && BinOf(t, e.key, bins) == i)
  }

  /** Every bin is sound and its elements are among `elements`. */
  ghost predicate AllSound(heads: seq<HashElement?>, cells: seq<seq<HashElement>>, es: seq<Entry>,
                           t: HashType, bins: nat, elements: set<HashElement>)
    requires bins > 0
    reads elements
    ensures AllSound(heads, cells, es, t, bins, elements) ==> |heads| == |cells| == bins
  {
    && |heads| == |cells| == bins
    && forall i :: 0 <= i < bins ==>
          && (forall e :: e in cells[i] ==> e in elements)
          && BinSound(heads[i], cells[i], InBin(es, t, bins, i), t, bins, i)
  }

  lemma BinAt(heads: seq<HashElement?>, cells: seq<seq<HashElement>>, es: seq<Entry>,
              t: HashType, bins: nat, elements: set<HashElement>, i: nat)
    requires bins > 0 && AllSound(heads, cells, es, t, bins, elements) && i < bins
    ensures BinSound(heads[i], cells[i], InBin(es, t, bins, i), t, bins, i)
    ensures forall e :: e in cells[i] ==> e in elements
  {
  }

  /** Elements of different bins are different. */
  lemma BinsApart(heads: seq<HashElement?>, cells: seq<seq<HashElement>>, es: seq<Entry>,
                  t: HashType, bins: nat, elements: set<HashElement>, i: nat, k: nat)
    requires bins > 0 && AllSound(heads, cells, es, t, bins, elements) && i < bins && k < bins && i != k
    ensures forall e :: e in cells[k] ==> e !in cells[i] && e in elements
  {
    BinAt(heads, cells, es, t, bins, elements, i);
    BinAt(heads, cells, es, t, bins, elements, k);
  }

  /** The bins but `index` are sound and their elements are apart from it. */
  ghost predicate OthersSound(heads: seq<HashElement?>, cells: seq<seq<HashElement>>, es: seq<Entry>,
                              t: HashType, bins: nat, elements: set<HashElement>, index: nat)
    requires bins > 0
    reads elements
  {
    && |heads| == |cells| == bins && index < bins
    && forall k :: 0 <= k < bins && k != index ==>
          && (forall e :: e in cells[k] ==> e in elements && e !in cells[index])
          && BinSound(heads[k], cells[k], InBin(es, t, bins, k), t, bins, k)
  }

  lemma OthersAre(heads: seq<HashElement?>, cells: seq<seq<HashElement>>, es: seq<Entry>,
                  t: HashType, bins: nat, elements: set<HashElement>, index: nat)
    requires bins > 0 && AllSound(heads, cells, es, t, bins, elements) && index < bins
    ensures OthersSound(heads, cells, es, t, bins, elements, index)
  {
    forall k | 0 <= k < bins && k != index
      ensures forall e :: e in cells[k] ==> e in elements && e !in cells[index]
    {
      BinsApart(heads, cells, es, t, bins, elements, index, k);
    }
  }

  /** After linking `pEle` into bin `index`. */
  lemma {:induction false} InsertedSound(heads: seq<HashElement?>, cells: seq<seq<HashElement>>, es: seq<Entry>,
                      t: HashType, bins: nat, elements: set<HashElement>, index: nat, pEle: HashElement)
    requires bins > 0 && OthersSound(heads, cells, es, t, bins, elements, index)
    requires index == BinOf(t, pEle.key, bins) && Accepts(t, pEle.key) && index < |cells| == |heads| == bins
    requires Cycle(cells[index] + [pEle]) && heads[index] == (if cells[index] == [] then pEle else cells[index][0])
    requires Entries(cells[index]) == InBin(es, t, bins, index)
    requires forall e :: e in cells[index] ==> e in elements && Accepts(t, e.key) && BinOf(t, e.key, bins) == index
    ensures AllSound(heads, cells[index := cells[index] + [pEle]], es + [Entry(pEle.key, pEle.data)], t, bins,
                     elements + {pEle})
  {
    BinGrows(heads[index], cells[index], pEle, es, t, bins, index);
    forall k | 0 <= k < bins && k != index
      ensures InBin(es + [Entry(pEle.key, pEle.data)], t, bins, k) == InBin(es, t, bins, k)
    {
      InBinAppend(es, Entry(pEle.key, pEle.data), t, bins, k);
    }
  }

  lemma CycleLinks(list: seq<HashElement>, j: nat)
    requires Cycle(list) && j < |list|
    ensures list[j].pPrev == Before(list, j) && list[j].pNext == After(list, j)
    ensures list[j].pPrev in list && list[j].pNext in list
    ensures list[j].pPrev == list[j] <==> |list| == 1
    ensures list[j] == list[0] <==> j == 0
    ensures forall k :: 0 <= k < |list| && k != j ==> list[k] != list[j]
  {
    AllDiffer(list);
    assert Linked(list, j);
    assert Linked(list, 0);
  }

  lemma NewHead(list: seq<HashElement>, j: nat, rest: seq<HashElement>)
    requires j < |list| && rest == list[..j] + list[j + 1..]
    ensures rest == [] <==> |list| == 1
    ensures rest != [] ==> rest[0] == if j == 0 then After(list, j) else list[0]
  {
  }

  /** After unlinking element `j` of bin `index`, the first that matches `key`. */
  lemma {:induction false} RemovedSound(heads: seq<HashElement?>, cells: seq<seq<HashElement>>, es: seq<Entry>,
                     t: HashType, bins: nat, elements: set<HashElement>, index: nat, key: Key, j: nat,
                     rest: seq<HashElement>)
    requires bins > 0 && OthersSound(heads, cells, es, t, bins, elements, index)
    requires index == BinOf(t, key, bins) && index < |cells| == |heads| == bins && j < |cells[index]|
    requires rest == cells[index][..j] + cells[index][j + 1..]
    requires Cycle(rest) && heads[index] == (if rest == [] then null else rest[0])
    requires Entries(rest) == Without(InBin(es, t, bins, index), key)
    requires forall e :: e in cells[index] ==> e in elements && Accepts(t, e.key) && BinOf(t, e.key, bins) == index
    requires forall k :: 0 <= k < |cells[index]| && k != j ==> cells[index][k] != cells[index][j]
    ensures AllSound(heads, cells[index := rest], Without(es, key), t, bins, elements - {cells[index][j]})
  {
    forall k | 0 <= k < bins
      ensures InBin(Without(es, key), t, bins, k) ==
              if k == index then Without(InBin(es, t, bins, k), key) else InBin(es, t, bins, k)
    {
      WithoutInBin(es, key, t, bins, k);
    }
    forall e | e in rest
      ensures e in cells[index] && e != cells[index][j]
    {
      var k :| 0 <= k < |rest| && rest[k] == e;
      assert e == cells[index][if k < j then k else k + 1];
    }
  }

  lemma RemovedUnique(es: seq<Entry>, key: Key, unique: bool)
    requires unique ==> Unique(es)
    ensures unique ==> Unique(Without(es, key))
    ensures |Without(es, key)| == if Lookup(es, key).None? then |es| else |es| - 1
  {
    QueueOfRemove(es, key, key);
    if unique {
      WithoutUnique(es, key);
    }
  }

  /** A key that is not proper is in no table. */
  lemma KeyAbsent(es: seq<Entry>, key: Key)
    ensures !Proper(key) ==> Lookup(es, key).None?
  {
    LookupNone(es, key);
  }

  lemma EmptyBin(head: HashElement?, list: seq<HashElement>, t: HashType, bins: nat, i: nat)
    requires bins > 0 && head == null && list == []
    ensures BinSound(head, list, [], t, bins, i)
  {
  }

  lemma {:induction false} BinGrows(head: HashElement?, list: seq<HashElement>, pEle: HashElement, es: seq<Entry>,
                                    t: HashType, bins: nat, i: nat)
    requires bins > 0 && Cycle(list + [pEle]) && head == (if list == [] then pEle else list[0])
    requires Entries(list) == InBin(es, t, bins, i) && Accepts(t, pEle.key) && BinOf(t, pEle.key, bins) == i
    requires forall e :: e in list ==> Accepts(t, e.key) && BinOf(t, e.key, bins) == i
    ensures BinSound(head, list + [pEle], InBin(es + [Entry(pEle.key, pEle.data)], t, bins, i), t, bins, i)
  {
    EntriesAppend(list, pEle);
    InBinAppend(es, Entry(pEle.key, pEle.data), t, bins, i);
  }

  class MxHashTable {
    const mpBin: array<HashElement?>
    const mBinNumber: nat
    const mDuplicateNumber: int
    const mHashType: HashType
    const mBitMask: nat
    var mNumberOfElement: nat
    /** All entries, oldest first, and the cycle of each bin. */
    ghost var entries: seq<Entry>
    ghost var cells: seq<seq<HashElement>>
    ghost var elements: set<HashElement>

    ghost predicate Valid()
      reads this, mpBin, elements
    {
      && 0 < mBinNumber < 0x8000_0000 && mpBin.Length == |cells| == mBinNumber
      && mBitMask == (if And(mBinNumber, mBinNumber - 1) == 0 then mBinNumber - 1 else 0)
      && mNumberOfElement == |entries|
      && AllSound(mpBin[..], cells, entries, mHashType, mBinNumber, elements)
      && (mDuplicateNumber == 0 ==> Unique(entries))
    }

    constructor (numberOfBin: nat, hashType: HashType, duplicateNum: int)
      requires 0 < numberOfBin < 0x8000_0000
      ensures Valid() && entries == [] && elements == {} && fresh(mpBin)
      ensures mHashType == hashType && mDuplicateNumber == duplicateNum && mBinNumber == numberOfBin
    {
      var bins := new HashElement?[numberOfBin];
      var i := 0;
      while i < numberOfBin
        invariant i <= numberOfBin && forall k :: 0 <= k < i ==> bins[k] == null
      {
        bins[i] := null;
        i := i + 1;
      }
      mpBin := bins;
      mBinNumber := numberOfBin;
      mDuplicateNumber := duplicateNum;
      mHashType := hashType;
      mNumberOfElement := 0;
      mBitMask := if And(numberOfBin, numberOfBin - 1) == 0 then numberOfBin - 1 else 0;
      entries := [];
      elements := {};
      cells := seq(numberOfBin, i => []);
      new;
      forall k | 0 <= k < mBinNumber
        ensures cells[k] == [] && BinSound(mpBin[k], cells[k], [], mHashType, mBinNumber, k)
      {
        EmptyBin(mpBin[k], cells[k], mHashType, mBinNumber, k);
      }
    }

    /** The walk around a bin that find and remove share: the first element that matches,
        or null once the walk is back at the head. */
    method Search(index: nat, key: Key) returns (found: HashElement?, ghost j: nat)
      requires Valid() && index < mBinNumber
      ensures j <= |cells[index]| && (forall k :: 0 <= k < j ==> !Matches(cells[index][k].key, key))
      ensures if found == null then j == |cells[index]|
              else j < |cells[index]| && found == cells[index][j] && Matches(found.key, key)
    {
      ghost var list := cells[index];
      BinAt(mpBin[..], cells, entries, mHashType, mBinNumber, elements, index);
      AllDiffer(list);
      var pOrg := mpBin[index];
      j := 0;
      if pOrg == null {
        return null, 0;
      }
      var pNext: HashElement? := null;
      while pOrg != pNext
        invariant j <= |list| && (forall k :: 0 <= k < j ==> !Matches(list[k].key, key))
        invariant pNext == if j == 0 then null else if j < |list| then list[j] else list[0]
        decreases |list| - j
      {
        if pNext == null {
          pNext := pOrg;
        }
        if Matches(pNext.key, key) {
          return pNext, j;
        }
        CycleLinks(list, j);
        pNext := pNext.pNext;
        j := j + 1;
      }
      found := null;
    }

    /** find */
    method Find(key: Key) returns (isFound: bool, data: int)
      requires Valid()
      ensures isFound == (Accepts(mHashType, key) && Lookup(entries, key).Some?)
      ensures data == if isFound then Lookup(entries, key).value else 0
    {
      var index := FindBinIndex(mHashType, key, mBinNumber, mBitMask);
      if index != -1 {
        var found, j := Search(index, key);
        SearchedEntries(index, key, j);
        if found != null {
          return true, found.data;
        }
      }
      return false, 0;
    }

    /** What a search of the right bin says of the whole table. */
    lemma SearchedEntries(index: nat, key: Key, j: nat)
      requires Valid() && index == BinOf(mHashType, key, mBinNumber)
      requires j <= |cells[index]| && (forall k :: 0 <= k < j ==> !Matches(cells[index][k].key, key))
      requires j < |cells[index]| ==> Matches(cells[index][j].key, key)
      ensures Lookup(entries, key) == if j < |cells[index]| then Some(cells[index][j].data) else None
      ensures Without(InBin(entries, mHashType, mBinNumber, index), key) ==
              if j < |cells[index]| then Entries(cells[index][..j] + cells[index][j + 1..])
              else InBin(entries, mHashType, mBinNumber, index)
    {
      var list, es := cells[index], InBin(entries, mHashType, mBinNumber, index);
      BinAt(mpBin[..], cells, entries, mHashType, mBinNumber, elements, index);
      EntriesAt(list);
      FirstAt(es, key, j);
      LookupInBin(entries, key, mHashType, mBinNumber);
      if j < |list| {
        EntriesSplit(list, j);
      }
    }

    /** The pointers of insertToBin. */
    method LinkIntoBin(index: nat, pEle: HashElement)
      requires Valid() && index < mBinNumber && pEle !in elements && pEle.pPrev == pEle.pNext == pEle
      modifies mpBin, elements, pEle
      ensures mpBin[index] == (if cells[index] == [] then pEle else cells[index][0])
      ensures Cycle(cells[index] + [pEle])
      ensures OthersSound(mpBin[..], cells, entries, mHashType, mBinNumber, elements, index)
    {
      ghost var list := cells[index];
      BinAt(mpBin[..], cells, entries, mHashType, mBinNumber, elements, index);
      OthersAre(mpBin[..], cells, entries, mHashType, mBinNumber, elements, index);
      if mpBin[index] != null {
        CycleLinks(list, 0);
        LinkLast(list, mpBin[index], pEle);
      } else {
        mpBin[index] := pEle;
        assert [] + [pEle] == [pEle];
      }
    }

    /** Records the change of one bin that the pointers have made. */
    ghost method Record(index: nat, list: seq<HashElement>, es: seq<Entry>, els: set<HashElement>)
      requires 0 < mBinNumber < 0x8000_0000 && mpBin.Length == mBinNumber == |cells| && index < mBinNumber
      requires mBitMask == (if And(mBinNumber, mBinNumber - 1) == 0 then mBinNumber - 1 else 0)
      requires AllSound(mpBin[..], cells[index := list], es, mHashType, mBinNumber, els)
      requires mNumberOfElement == |es| && (mDuplicateNumber == 0 ==> Unique(es))
      modifies this`entries, this`cells, this`elements
      ensures Valid() && entries == es && elements == els
    {
      entries := es;
      cells := cells[index := list];
      elements := els;
    }

    /** insertToBin */
    method InsertToBin(index: nat, pEle: HashElement)
      requires Valid() && index == BinOf(mHashType, pEle.key, mBinNumber) && Accepts(mHashType, pEle.key)
      requires pEle !in elements && pEle.pPrev == pEle.pNext == pEle
      requires mDuplicateNumber == 0 ==> Lookup(entries, pEle.key).None?
      modifies this`mNumberOfElement, this`entries, this`cells, this`elements, mpBin, elements, pEle
      ensures Valid() && entries == old(entries) + [Entry(pEle.key, pEle.data)] && elements == old(elements) + {pEle}
    {
      ghost var e := Entry(pEle.key, pEle.data);
      BinAt(mpBin[..], cells, entries, mHashType, mBinNumber, elements, index);
      LinkIntoBin(index, pEle);
      InsertedSound(mpBin[..], cells, entries, mHashType, mBinNumber, elements, index, pEle);
      InsertIsMapIf(entries, e, mDuplicateNumber == 0);
      mNumberOfElement := mNumberOfElement + 1;
      Record(index, cells[index] + [pEle], entries + [e], elements + {pEle});
    }

    /** insert: false if the key is taken and duplicates are off, or of the wrong kind. */
    method Insert(key: Key, data: int) returns (ok: bool)
      requires Valid()
      modifies this`mNumberOfElement, this`entries, this`cells, this`elements, mpBin, elements
      ensures Valid() && fresh(elements - old(elements))
      ensures ok == (Accepts(mHashType, key) && (mDuplicateNumber == 0 ==> old(Lookup(entries, key)).None?))
      ensures entries == old(entries) + (if ok then [Entry(key, data)] else [])
    {
      if mDuplicateNumber == 0 {
        var isFound, d := Find(key);
        if isFound {
          return false;
        }
      }
      var index := FindBinIndex(mHashType, key, mBinNumber, mBitMask);
      if index != -1 {
        var pEle := new HashElement(key, data);
        InsertToBin(index, pEle);
        return true;
      }
      return false;
    }

    /** The pointers of remove. */
    method UnlinkFromBin(index: nat, found: HashElement, ghost j: nat, ghost rest: seq<HashElement>)
      requires Valid() && index < mBinNumber && j < |cells[index]| && cells[index][j] == found
      requires rest == cells[index][..j] + cells[index][j + 1..]
      modifies mpBin, elements
      ensures Cycle(rest) && mpBin[index] == if rest == [] then null else rest[0]
      ensures OthersSound(mpBin[..], cells, entries, mHashType, mBinNumber, elements, index)
    {
      ghost var list := cells[index];
      BinAt(mpBin[..], cells, entries, mHashType, mBinNumber, elements, index);
      OthersAre(mpBin[..], cells, entries, mHashType, mBinNumber, elements, index);
      CycleLinks(list, j);
      NewHead(list, j, rest);
      if found.pPrev == found {
        mpBin[index] := null;
      } else if found == mpBin[index] {
        mpBin[index] := found.pNext;
      }
      Unlink(list, j, found);
    }

    /** Takes the first match, which was found at `j`, out of its bin. */
    method RemoveFromBin(index: nat, found: HashElement, ghost j: nat, ghost key: Key, ghost rest: seq<HashElement>)
      requires Valid() && index == BinOf(mHashType, key, mBinNumber) && Lookup(entries, key).Some?
      requires j < |cells[index]| && cells[index][j] == found && rest == cells[index][..j] + cells[index][j + 1..]
      requires Without(InBin(entries, mHashType, mBinNumber, index), key) == Entries(rest)
      modifies this`mNumberOfElement, this`entries, this`cells, this`elements, mpBin, elements
      ensures Valid() && entries == Without(old(entries), key) && elements == old(elements) - {found}
    {
      BinAt(mpBin[..], cells, entries, mHashType, mBinNumber, elements, index);
      CycleLinks(cells[index], j);
      UnlinkFromBin(index, found, j, rest);
      RemovedSound(mpBin[..], cells, entries, mHashType, mBinNumber, elements, index, key, j, rest);
      RemovedUnique(entries, key, mDuplicateNumber == 0);
      mNumberOfElement := mNumberOfElement - 1;
      Record(index, rest, Without(entries, key), elements - {found});
    }

    /** remove: takes the first match out and returns its data; a null pointer if none. */
    method Remove(key: Key) returns (data: int)
      requires Valid()
      modifies this`mNumberOfElement, this`entries, this`cells, this`elements, mpBin, elements
      ensures Valid() && elements <= old(elements)
      ensures var hit := Accepts(mHashType, key) && old(Lookup(entries, key)).Some?;
              && data == (if hit then old(Lookup(entries, key)).value else 0)
              && entries == if hit then Without(old(entries), key) else old(entries)
    {
      var index := FindBinIndex(mHashType, key, mBinNumber, mBitMask);
      if index != -1 {
        var found, j := Search(index, key);
        SearchedEntries(index, key, j);
        if found != null {
          RemoveFromBin(index, found, j, key, cells[index][..j] + cells[index][j + 1..]);
          return found.data;
        }
      }
      return 0;
    }

    /** insert, and then find with the same key. Each type of table takes its own kind of
        key, whatever the number, pair, string or pointer, but for the empty string and
        the null pointer, which are never found. */
    method InsertThenFind(key: Key, data: int) returns (ok: bool, isFound: bool, found: int)
      requires Valid()
      modifies this`mNumberOfElement, this`entries, this`cells, this`elements, mpBin, elements
      ensures Valid()
      ensures match key
              case IntKey(_) => isFound <==> mHashType == INT32Type || mHashType == MainCCType
              case PairKey(_, _) => isFound <==> mHashType == INT64Type
              case StringKey(s) => isFound <==> mHashType == StringType && s != []
              case PointerKey(p) => isFound <==> mHashType == PointerType && p != 0
      ensures isFound ==> ok == (mDuplicateNumber != 0 || old(Lookup(entries, key)).None?)
      ensures isFound ==> found == if old(Lookup(entries, key)).Some? then old(Lookup(entries, key)).value else data
    {
      ghost var es := entries;
      ok := Insert(key, data);
      assert es + [] == es;
      LookupAppend(es, Entry(key, data), key);
      MatchesExactly(key, key);
      KeyAbsent(es, key);
      isFound, found := Find(key);
    }

    /** size */
    function Size(): (n: nat)
      requires Valid()
      reads this, mpBin, elements
      ensures n == |entries|
    {
      mNumberOfElement
    }
  }
}
