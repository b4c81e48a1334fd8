/** The L1 cache as the mutable object a client holds: a list of elements, and an index that points into it. */
module L1CacheObject {
  import opened Common
  import opened L1

  /** A list element; the cache updates its value and deadline in place. */
  class Element {
    const key: Key
    var value: Value
    var expiresAt: int

    constructor (key: Key, value: Value, expiresAt: int)
      ensures this.key == key && this.value == value && this.expiresAt == expiresAt
    {
      this.key, this.value, this.expiresAt := key, value, expiresAt;
    }
  }

  // ---------------------------------------------------------------- the list and the index

  /** No element is listed twice. */
  predicate Apart(list: seq<Element>) {
    forall i, j :: 0 <= i < j < |list| ==> list[i] != list[j]
  }

  /** The index points to each listed element under its key, and to nothing else. */
  ghost predicate Linked(list: seq<Element>, items: map<Key, Element>) {
    && Apart(list)
    && (forall e :: e in list ==> e.key in items && items[e.key] == e)
    && (forall k :: k in items ==> items[k] in list && items[k].key == k)
  }

  /** The elements carry the keys of the recency list `s`, in order. */
  ghost predicate SameKeys(list: seq<Element>, s: Recency) {
    |list| == |s| && forall i :: 0 <= i < |list| ==> list[i].key == s[i].key
  }

  /** Looking a key up in the index finds the element that a search of the list would find. */
  lemma LinkedMeans(list: seq<Element>, items: map<Key, Element>, s: Recency, k: Key)
    requires Linked(list, items) && SameKeys(list, s)
    ensures OneEach(s)
    ensures k !in items ==> Find(s, k).None?
    ensures k in items ==> exists i :: 0 <= i < |list| && list[i] == items[k] && Find(s, k) == Some(s[i])
  {
    forall i, j | 0 <= i < j < |s| ensures s[i].key != s[j].key {
      assert list[i] in list && list[j] in list;
    }
    if k in items {
      var i :| 0 <= i < |list| && list[i] == items[k];
      assert s[i] in s;
      FindUnique(s, s[i]);
    } else {
      FindMeans(s, k);
      forall e | e in s ensures e.key != k {
        var i :| 0 <= i < |s| && s[i] == e;
        assert list[i] in list;
      }
    }
  }

  lemma IndexKnows(list: seq<Element>, items: map<Key, Element>, s: Recency, k: Key)
    requires Linked(list, items) && SameKeys(list, s)
    ensures k in items <==> Find(s, k).Some?
    ensures k in items ==> items[k] in list && items[k].key == k
  {
    LinkedMeans(list, items, s, k);
  }

  lemma SetEffect(s: Recency, k: Key, v: Value, ttl: int, now: int, cap: nat, d: int)
    ensures var e := Entry(k, v, Until(ttl, d, now));
            Apply(s, L1.Set(k, v, ttl, now), cap, d).0
            == if Find(s, k).Some? then [e] + DropKey(s, k) else Pushed(s, e, cap)
  {
  }

  function Removed<T>(list: seq<T>, i: nat): (rest: seq<T>)
    requires i < |list|
    ensures |rest| == |list| - 1
    ensures forall j :: 0 <= j < |rest| ==> rest[j] == list[if j < i then j else j + 1]
  {
    list[..i] + list[i + 1..]
  }

  /** The element at a position moved to the front. */
  function Moved<T>(list: seq<T>, i: nat): (r: seq<T>)
    requires i < |list|
    ensures |r| == |list| && r == [list[i]] + Removed(list, i)
    ensures forall j :: 0 <= j < |r| ==> r[j] == list[if j == 0 then i else if j <= i then j - 1 else j]
  {
    [list[i]] + Removed(list, i)
  }

  function Fronted<T>(x: T, list: seq<T>): (r: seq<T>)
    ensures |r| == |list| + 1 && r == [x] + list
    ensures forall j :: 0 <= j < |r| ==> r[j] == if j == 0 then x else list[j - 1]
  {
    [x] + list
  }

  lemma NewHead<T>(x: T, rest: seq<T>, y: T)
    ensures ([x] + rest)[0 := y] == [y] + rest
  {
  }

  /** Taking out the entry at a position is dropping its key. */
  lemma {:induction false} RemovalDropsKey(s: Recency, i: nat)
    requires OneEach(s) && i < |s|
    ensures Removed(s, i) == DropKey(s, s[i].key)
  {
    var t := s[1..];
    if i == 0 {
      FindMeans(t, s[0].key);
      forall e | e in t ensures e.key != s[0].key {
        var j :| 0 <= j < |t| && t[j] == e;
        assert s[j + 1] == e;
      }
      DropMeans(t, s[0].key);
    } else {
      RemovalDropsKey(t, i - 1);
      assert Removed(s, i) == [s[0]] + Removed(t, i - 1);
    }
  }

  lemma RemovedElements(list: seq<Element>, i: nat)
    requires Apart(list) && i < |list|
    ensures Apart(Removed(list, i))
    ensures forall e :: e in Removed(list, i) <==> e in list && e != list[i]
  {
    var rest := Removed(list, i);
    forall e | e in list && e != list[i] ensures e in rest {
      var j :| 0 <= j < |list| && list[j] == e;
      assert rest[if j < i then j else j - 1] == e;
    }
  }

  lemma RemovedLinks(list: seq<Element>, items: map<Key, Element>, i: nat)
    requires Linked(list, items) && i < |list|
    ensures Linked(Removed(list, i), items - {list[i].key})
    ensures list[i].key in items && items[list[i].key] == list[i]
  {
    RemovedElements(list, i);
    assert list[i] in list;
  }

  lemma FrontLinks(list: seq<Element>, items: map<Key, Element>, e: Element)
    requires Linked(list, items) && e.key !in items
    ensures Linked(Fronted(e, list), items[e.key := e])
  {
    assert forall x :: x in Fronted(e, list) <==> x == e || x in list;
  }

  lemma FrontKeys(list: seq<Element>, s: Recency, x: Element, e: Entry)
    requires SameKeys(list, s) && x.key == e.key
    ensures SameKeys(Fronted(x, list), Fronted(e, s))
  {
  }

  lemma MovedLinks(list: seq<Element>, items: map<Key, Element>, i: nat)
    requires Linked(list, items) && i < |list|
    ensures Linked(Moved(list, i), items)
    ensures forall e :: e in Moved(list, i) <==> e in list
  {
    RemovedLinks(list, items, i);
    RemovedElements(list, i);
    FrontLinks(Removed(list, i), items - {list[i].key}, list[i]);
    assert (items - {list[i].key})[list[i].key := list[i]] == items;
    assert forall e :: e in Moved(list, i) <==> e == list[i] || e in Removed(list, i);
  }

  /** Removing position `i` from the list and from the recency list it carries. */
  lemma RemovedTogether(list: seq<Element>, items: map<Key, Element>, s: Recency, i: nat)
    requires Linked(list, items) && SameKeys(list, s) && i < |list|
    ensures Linked(Removed(list, i), items - {list[i].key}) && SameKeys(Removed(list, i), Removed(s, i))
    ensures Removed(s, i) == DropKey(s, list[i].key)
    ensures forall e :: e in Removed(list, i) ==> e in list
  {
    LinkedMeans(list, items, s, list[i].key);
    RemovalDropsKey(s, i);
    RemovedLinks(list, items, i);
    RemovedElements(list, i);
  }

  /** Moving position `i` to the front of both. */
  lemma MovedTogether(list: seq<Element>, items: map<Key, Element>, s: Recency, i: nat)
    requires Linked(list, items) && SameKeys(list, s) && i < |list|
    ensures Linked(Moved(list, i), items) && SameKeys(Moved(list, i), Moved(s, i))
    ensures Moved(s, i) == [s[i]] + DropKey(s, list[i].key)
    ensures forall e :: e in Moved(list, i) <==> e in list
  {
    RemovedTogether(list, items, s, i);
    MovedLinks(list, items, i);
  }

  // ---------------------------------------------------------------- the cache

  class L1Cache {
    const capacity: nat
    const defaultTTL: int
    var evictList: seq<Element>
    var items: map<Key, Element>
    ghost var model: Recency

    /** List and index fit together, and the elements hold what the recency list `model` says. */
    ghost predicate Consistent()
      reads this, evictList
    {
      && Linked(evictList, items) && SameKeys(evictList, model)
      && forall i :: 0 <= i < |evictList| ==>
           evictList[i].value == model[i].value && evictList[i].expiresAt == model[i].expiresAt
    }

    ghost predicate Valid()
      reads this, evictList
    {
      0 < capacity && |evictList| <= capacity && Consistent()
    }

    constructor (capacity: int, defaultTTL: int)
      ensures Valid() && model == []
      ensures this.capacity == if capacity <= 0 then 1000 else capacity
      ensures this.defaultTTL == if defaultTTL <= 0 then 5_000_000_000 else defaultTTL
    {
      this.capacity := if capacity <= 0 then 1000 else capacity;
      this.defaultTTL := if defaultTTL <= 0 then 5_000_000_000 else defaultTTL;
      evictList, items, model := [], map[], [];
    }

    /** Where the list holds the element. */
    method Position(elem: Element) returns (i: nat)
      requires elem in evictList
      ensures i < |evictList| && evictList[i] == elem
    {
      i := 0;
      while evictList[i] != elem
        invariant i < |evictList| && elem !in evictList[..i]
        decreases |evictList| - i
      {
        assert elem !in evictList[..i + 1];
        i := i + 1;
      }
    }

    method RemoveElement(elem: Element)
      requires Consistent() && elem in evictList
      modifies this
      ensures Consistent() && model == DropKey(old(model), elem.key)
      ensures |evictList| == |old(evictList)| - 1 && forall e :: e in evictList ==> e in old(evictList)
    {
      var i := Position(elem);
      RemovedTogether(evictList, items, model, i);
      evictList, items, model := Removed(evictList, i), items - {elem.key}, Removed(model, i);
    }

    /** Moves a listed element to the front; returns where it was. */
    method MoveToFront(elem: Element) returns (ghost i: nat)
      requires Consistent() && elem in evictList
      modifies `evictList, `model
      ensures Consistent() && evictList != [] && evictList[0] == elem
      ensures i < |old(evictList)| && old(evictList)[i] == elem && |evictList| == |old(evictList)|
      ensures model == [old(model)[i]] + DropKey(old(model), elem.key)
      ensures forall e :: e in evictList <==> e in old(evictList)
    {
      var p := Position(elem);
      MovedTogether(evictList, items, model, p);
      evictList, model := Moved(evictList, p), Moved(model, p);
      i := p;
    }

    method Get(key: Key, now: int) returns (r: Option<Value>)
      requires Valid()
      modifies this
      ensures Valid() && forall e :: e in evictList ==> e in old(evictList)
      ensures (model, r) == Apply(old(model), L1.Get(key, now), capacity, defaultTTL)
    {
      LinkedMeans(evictList, items, model, key);
      if key !in items { return None; }
      var elem := items[key];
      r := Some(elem.value);
      if now > elem.expiresAt {
        RemoveElement(elem);
        return None;
      }
      ghost var _ := MoveToFront(elem);
    }

    /** The front element gets a new value and deadline, in place. */
    method UpdateFront(value: Value, expiresAt: int)
      requires Consistent() && evictList != []
      modifies `model, evictList[0]
      ensures Consistent() && model == old(model)[0 := Entry(evictList[0].key, value, expiresAt)]
    {
      var elem := evictList[0];
      elem.value, elem.expiresAt := value, expiresAt;
      model := model[0 := Entry(elem.key, value, expiresAt)];
    }

    /** An element that is already listed: to the front, and updated in place. */
    method Refresh(elem: Element, value: Value, expiresAt: int)
      requires Consistent() && elem in evictList
      modifies `evictList, `model, elem
      ensures Consistent() && |evictList| == |old(evictList)|
      ensures model == [Entry(elem.key, value, expiresAt)] + DropKey(old(model), elem.key)
      ensures forall e :: e in evictList <==> e in old(evictList)
    {
      ghost var i := MoveToFront(elem);
      UpdateFront(value, expiresAt);
      NewHead(old(model)[i], DropKey(old(model), elem.key), Entry(elem.key, value, expiresAt));
    }

    method PushFront(key: Key, value: Value, expiresAt: int)
      requires Consistent() && key !in items
      modifies this
      ensures Consistent() && model == [Entry(key, value, expiresAt)] + old(model)
      ensures forall e :: e in evictList ==> e in old(evictList) || fresh(e)
    {
      var elem := new Element(key, value, expiresAt);
      FrontLinks(evictList, items, elem);
      FrontKeys(evictList, model, elem, Entry(key, value, expiresAt));
      evictList, items := Fronted(elem, evictList), items[key := elem];
      model := Fronted(Entry(key, value, expiresAt), model);
    }

    method EvictOldest()
      requires Consistent() && evictList != []
      modifies this
      ensures Consistent() && model == old(model)[..|old(model)| - 1]
      ensures |evictList| == |old(evictList)| - 1 && forall e :: e in evictList ==> e in old(evictList)
    {
      var i := |evictList| - 1;
      LinkedMeans(evictList, items, model, evictList[i].key);
      RemovalDropsKey(model, i);
      assert Removed(model, i) == model[..i];
      RemoveElement(evictList[i]);
    }

    /** A key that is not cached yet: to the front, and the oldest goes if there are too many. */
    method Insert(key: Key, value: Value, expiresAt: int)
      requires Valid() && key !in items
      modifies this
      ensures Valid() && model == Pushed(old(model), Entry(key, value, expiresAt), capacity)
      ensures forall e :: e in evictList ==> e in old(evictList) || fresh(e)
    {
      PushFront(key, value, expiresAt);
      if |evictList| > capacity { EvictOldest(); }
    }

    method Set(key: Key, value: Value, ttl: int, now: int)
      requires Valid()
      modifies this, evictList
      ensures Valid() && forall e :: e in evictList ==> e in old(evictList) || fresh(e)
      ensures model == Apply(old(model), L1.Set(key, value, ttl, now), capacity, defaultTTL).0
    {
      IndexKnows(evictList, items, model, key);
      SetEffect(model, key, value, ttl, now, capacity, defaultTTL);
      var expiresAt := now + if ttl <= 0 then defaultTTL else ttl;
      if key in items {
        Refresh(items[key], value, expiresAt);
        return;
      }
      Insert(key, value, expiresAt);
    }

    method Delete(key: Key)
      requires Valid()
      modifies this
      ensures Valid() && forall e :: e in evictList ==> e in old(evictList)
      ensures model == Apply(old(model), L1.Delete(key), capacity, defaultTTL).0
    {
      LinkedMeans(evictList, items, model, key);
      if key in items { RemoveElement(items[key]); } else { DropMeans(model, key); }
    }

    method Clear()
      requires Valid()
      modifies this
      ensures Valid() && model == Apply(old(model), L1.Clear, capacity, defaultTTL).0
    {
      evictList, items, model := [], map[], [];
    }
  }
}
