/** ObjectDictionary: two lookup maps of pointers into the dictionary's own storage. */
module ObjectDictionaries {
  import opened Options

  datatype SdoSubEntry = SdoSubEntry(index: int, name: string, dataType: int, size: nat)

  datatype SdoEntry = SdoEntry(
    index: int, objType: int, dataType: int, countSubIndices: nat, name: string, subEntries: seq<SdoSubEntry>)

  datatype Key = ByIndex(index: int) | ByName(name: string)

  predicate Matches(e: SdoEntry, key: Key) {
    match key
    case ByIndex(i) => e.index == i
    case ByName(n) => e.name == n
  }

  // Linear search: the position of the first entry with this key.
  function First(es: seq<SdoEntry>, key: Key): (p: Option<nat>)
    ensures p.Some? ==> p.value < |es| && Matches(es[p.value], key)
    ensures p.Some? ==> forall j | 0 <= j < p.value :: !Matches(es[j], key)
    ensures p.None? ==> forall j | 0 <= j < |es| :: !Matches(es[j], key)
  {
    if es == [] then None
    else
      var n := |es| - 1;
      var p := First(es[..n], key);
      if p.Some? then p else if Matches(es[n], key) then Some(n) else None
  }

  function Search(es: seq<SdoEntry>, key: Key): Option<SdoEntry> {
    var p := First(es, key);
    if p.Some? then Some(es[p.value]) else None
  }

  // It yields the entry at the first matching position, and nothing only if no entry matches.
  lemma SearchIs(es: seq<SdoEntry>, key: Key)
    ensures Search(es, key).Some? ==> exists p :: 0 <= p < |es| && es[p] == Search(es, key).value && FirstAt(es, key, p)
    ensures Search(es, key).None? ==> forall p | 0 <= p < |es| :: !Matches(es[p], key)
  {
    if First(es, key).Some? { assert FirstAt(es, key, First(es, key).value); }
  }

  ghost predicate FirstAt(es: seq<SdoEntry>, key: Key, p: int) {
    0 <= p < |es| && Matches(es[p], key) && forall q | 0 <= q < p :: !Matches(es[q], key)
  }

  // const SDOEntry*
  datatype EntryPtr = EntryPtr(buffer: array<SdoEntry>, pos: nat)

  // The map holds, for exactly the keys that occur, a pointer to the first entry with that key.
  ghost predicate Agrees<K(!new)>(m: map<K, EntryPtr>, toKey: K -> Key, buffer: array<SdoEntry>, es: seq<SdoEntry>) {
    forall k :: if k in m then First(es, toKey(k)).Some? && m[k] == EntryPtr(buffer, First(es, toKey(k)).value)
                else First(es, toKey(k)).None?
  }

  // After one more entry; emplace keeps an existing key.
  lemma AgreesNext<K(!new)>(m: map<K, EntryPtr>, toKey: K -> Key, k: K, buffer: array<SdoEntry>, es: seq<SdoEntry>,
                            e: SdoEntry)
    requires Agrees(m, toKey, buffer, es)
    requires forall x :: Matches(e, toKey(x)) <==> x == k
    ensures Agrees(if k in m then m else m[k := EntryPtr(buffer, |es|)], toKey, buffer, es + [e])
  {
    assert (es + [e])[..|es|] == es;
  }

  class ObjectDictionary {
    var storage: array<SdoEntry>
    var byIndex: map<int, EntryPtr>
    var byName: map<string, EntryPtr>

    ghost function Entries(): seq<SdoEntry>
      reads `storage, storage
    {
      storage[..]
    }

    ghost predicate Valid()
      reads this, storage
    {
      && Agrees(byIndex, i => Key.ByIndex(i), storage, storage[..])
      && Agrees(byName, n => Key.ByName(n), storage, storage[..])
    }

    constructor ()
      ensures Valid() && Entries() == [] && fresh(storage)
    {
      storage := new SdoEntry[0];
      byIndex, byName := map[], map[];
    }

    constructor FromEntries(entries: seq<SdoEntry>)
      ensures Valid() && Entries() == entries && fresh(storage)
    {
      storage := new SdoEntry[|entries|](i requires 0 <= i < |entries| => entries[i]);
      byIndex, byName := map[], map[];
      new;
      RebuildLookup();
    }

    constructor CopyOf(other: ObjectDictionary)
      ensures Valid() && Entries() == other.Entries() && fresh(storage)
    {
      storage := new SdoEntry[other.storage.Length](
        i requires 0 <= i < other.storage.Length reads other, other.storage => other.storage[i]);
      byIndex, byName := map[], map[];
      new;
      RebuildLookup();
    }

    constructor MoveFrom(other: ObjectDictionary)
      requires other.Valid()
      modifies other
      ensures Valid() && Entries() == old(other.Entries()) && storage == old(other.storage)
      ensures other.Valid() && other.Entries() == [] && fresh(other.storage)
    {
      storage, byIndex, byName := other.storage, other.byIndex, other.byName;
      new;
      other.Release();
    }

    // What a move leaves behind: no entries, both maps cleared.
    method Release()
      modifies this
      ensures Valid() && Entries() == [] && fresh(storage)
    {
      storage := new SdoEntry[0];
      byIndex, byName := map[], map[];
    }

    method CopyAssign(other: ObjectDictionary)
      requires Valid() && other.Valid()
      modifies this
      ensures Valid() && Entries() == old(other.Entries())
      ensures if this == other then storage == old(storage) else fresh(storage)
    {
      if this != other {
        storage := new SdoEntry[other.storage.Length](
          i requires 0 <= i < other.storage.Length reads other, other.storage => other.storage[i]);
        RebuildLookup();
      }
    }

    method MoveAssign(other: ObjectDictionary)
      requires Valid() && other.Valid()
      modifies this, other
      ensures Valid() && Entries() == old(other.Entries()) && storage == old(other.storage)
      ensures other != this ==> other.Valid() && other.Entries() == [] && fresh(other.storage)
    {
      if this != other {
        storage, byIndex, byName := other.storage, other.byIndex, other.byName;
        other.Release();
      }
    }

    method RebuildLookup()
      modifies `byIndex, `byName
      ensures Valid()
    {
      byIndex, byName := map[], map[];
      for k := 0 to storage.Length
        invariant Agrees(byIndex, i => Key.ByIndex(i), storage, storage[..k])
        invariant Agrees(byName, n => Key.ByName(n), storage, storage[..k])
      {
        var e := storage[k];
        AgreesNext(byIndex, i => Key.ByIndex(i), e.index, storage, storage[..k], e);
        AgreesNext(byName, n => Key.ByName(n), e.name, storage, storage[..k], e);
        assert storage[..k + 1] == storage[..k] + [e];
        if e.index !in byIndex { byIndex := byIndex[e.index := EntryPtr(storage, k)]; }
        if e.name !in byName { byName := byName[e.name := EntryPtr(storage, k)]; }
      }
      assert storage[..storage.Length] == storage[..];
    }

    function HasIndex(index: int): (r: bool)
      requires Valid()
      reads this, storage
      ensures r <==> exists e | e in Entries() :: e.index == index
    {
      index in byIndex
    }

    function HasName(name: string): (r: bool)
      requires Valid()
      reads this, storage
      ensures r <==> exists e | e in Entries() :: e.name == name
    {
      name in byName
    }

    // None: std::out_of_range
    function AtIndex(index: int): (r: Option<SdoEntry>)
      requires Valid()
      reads this, storage
      ensures r == Search(Entries(), Key.ByIndex(index))
      ensures r.Some? ==> r.value.index == index
      ensures r.Some? ==>
                exists p: nat :: p < |Entries()| && Entries()[p] == r.value
                                 && forall q | 0 <= q < p :: Entries()[q].index != index
      ensures r.None? ==> forall q | 0 <= q < |Entries()| :: Entries()[q].index != index
    {
      if index in byIndex then
        var p := byIndex[index];
        Some(p.buffer[p.pos])
      else None
    }

    function AtName(name: string): (r: Option<SdoEntry>)
      requires Valid()
      reads this, storage
      ensures r == Search(Entries(), Key.ByName(name))
      ensures r.Some? ==> r.value.name == name
      ensures r.Some? ==>
                exists p: nat :: p < |Entries()| && Entries()[p] == r.value
                                 && forall q | 0 <= q < p :: Entries()[q].name != name
      ensures r.None? ==> forall q | 0 <= q < |Entries()| :: Entries()[q].name != name
    {
      if name in byName then
        var p := byName[name];
        Some(p.buffer[p.pos])
      else None
    }
  }

  // ---- any sequence of operations -----------------------------------------------------------------

  datatype Command =
    | Construct(entries: seq<SdoEntry>)
    | CopyConstruct(src: nat)
    | MoveConstruct(src: nat)
    | CopyTo(src: nat, dst: nat)
    | MoveTo(src: nat, dst: nat)

  predicate Refers(c: Command, n: nat) {
    match c
    case Construct(_) => true
    case CopyConstruct(s) => s < n
    case MoveConstruct(s) => s < n
    case CopyTo(s, d) => s < n && d < n
    case MoveTo(s, d) => s < n && d < n
  }

  // What the dictionaries contain, as plain lists.
  function Apply(lists: seq<seq<SdoEntry>>, c: Command): seq<seq<SdoEntry>>
    requires Refers(c, |lists|)
  {
    match c
    case Construct(es) => lists + [es]
    case CopyConstruct(s) => lists + [lists[s]]
    case MoveConstruct(s) => lists[s := []] + [lists[s]]
    case CopyTo(s, d) => lists[d := lists[s]]
    case MoveTo(s, d) => if s == d then lists else lists[d := lists[s]][s := []]
  }

  // Every dictionary of the pool is valid, has its list's entries, and shares no storage.
  ghost predicate Represents(pool: seq<ObjectDictionary>, lists: seq<seq<SdoEntry>>)
    reads pool, set d | d in pool :: d.storage
  {
    && |pool| == |lists|
    && (forall i | 0 <= i < |pool| :: pool[i].Valid() && pool[i].Entries() == lists[i])
    && (forall i, j | 0 <= i < j < |pool| :: pool[i] != pool[j] && pool[i].storage != pool[j].storage)
  }

  method Execute(pool: seq<ObjectDictionary>, ghost lists: seq<seq<SdoEntry>>, c: Command)
    returns (pool': seq<ObjectDictionary>)
    requires Represents(pool, lists) && Refers(c, |pool|)
    modifies pool
    ensures Represents(pool', Apply(lists, c))
    ensures pool <= pool' && forall i | |pool| <= i < |pool'| :: fresh(pool'[i])
  {
    pool' := pool;
    if c.Construct? {
      var d := new ObjectDictionary.FromEntries(c.entries);
      pool' := pool + [d];
    } else if c.CopyConstruct? {
      var d := new ObjectDictionary.CopyOf(pool[c.src]);
      pool' := pool + [d];
    } else if c.MoveConstruct? {
      var d := new ObjectDictionary.MoveFrom(pool[c.src]);
      pool' := pool + [d];
    } else if c.CopyTo? {
      pool[c.dst].CopyAssign(pool[c.src]);
    } else {
      pool[c.dst].MoveAssign(pool[c.src]);
    }
  }

  // The lists after a whole script; None if it names a dictionary that does not exist yet.
  function RunLists(script: seq<Command>): Option<seq<seq<SdoEntry>>> {
    if script == [] then Some([])
    else
      var n := |script| - 1;
      var before := RunLists(script[..n]);
      if before.Some? && Refers(script[n], |before.value|) then Some(Apply(before.value, script[n])) else None
  }

  lemma {:induction false} RunsSoFar(script: seq<Command>, n: nat)
    requires RunLists(script).Some? && n <= |script|
    ensures RunLists(script[..n]).Some?
  {
    if n == |script| {
      assert script[..n] == script;
    } else {
      RunsSoFar(script[..|script| - 1], n);
      assert script[..|script| - 1][..n] == script[..n];
    }
  }

  lemma RunListsNext(script: seq<Command>, n: nat)
    requires RunLists(script).Some? && n < |script|
    ensures RunLists(script[..n]).Some? && Refers(script[n], |RunLists(script[..n]).value|)
    ensures RunLists(script[..n + 1]) == Some(Apply(RunLists(script[..n]).value, script[n]))
  {
    RunsSoFar(script, n + 1);
    assert script[..n + 1][..n] == script[..n];
  }

  // Represents, read as what callers see: each lookup by index yields the first entry of the dictionary's
  // own list that has it, through a pointer into its own storage, and nothing only if none has it.
  lemma IndexLookups(pool: seq<ObjectDictionary>, lists: seq<seq<SdoEntry>>, i: nat, index: int)
    requires Represents(pool, lists) && i < |pool|
    ensures pool[i].HasIndex(index) <==> exists q :: 0 <= q < |lists[i]| && lists[i][q].index == index
    ensures pool[i].HasIndex(index) <==> pool[i].AtIndex(index).Some?
    ensures pool[i].HasIndex(index) ==>
              var p := pool[i].byIndex[index];
              && p.buffer == pool[i].storage && p.pos < |lists[i]|
              && pool[i].AtIndex(index).value == lists[i][p.pos] && lists[i][p.pos].index == index
              && forall q | 0 <= q < p.pos :: lists[i][q].index != index
  {
    assert First(lists[i], Key.ByIndex(index)).Some? <==> pool[i].HasIndex(index);
  }

  lemma NameLookups(pool: seq<ObjectDictionary>, lists: seq<seq<SdoEntry>>, i: nat, name: string)
    requires Represents(pool, lists) && i < |pool|
    ensures pool[i].HasName(name) <==> exists q :: 0 <= q < |lists[i]| && lists[i][q].name == name
    ensures pool[i].HasName(name) <==> pool[i].AtName(name).Some?
    ensures pool[i].HasName(name) ==>
              var p := pool[i].byName[name];
              && p.buffer == pool[i].storage && p.pos < |lists[i]|
              && pool[i].AtName(name).value == lists[i][p.pos] && lists[i][p.pos].name == name
              && forall q | 0 <= q < p.pos :: lists[i][q].name != name
  {
    assert First(lists[i], Key.ByName(name)).Some? <==> pool[i].HasName(name);
  }

  // Any sequence of constructions, copies, moves and self-assignments.
  method RunScript(script: seq<Command>) returns (pool: seq<ObjectDictionary>)
    requires RunLists(script).Some?
    ensures Represents(pool, RunLists(script).value) && fresh(pool)
  {
    pool := [];
    ghost var lists := [];
    for n := 0 to |script|
      invariant RunLists(script[..n]) == Some(lists) && Represents(pool, lists)
      invariant forall i | 0 <= i < |pool| :: fresh(pool[i])
    {
      RunListsNext(script, n);
      pool := Execute(pool, lists, script[n]);
      lists := Apply(lists, script[n]);
    }
    assert script[..|script|] == script;
  }
}
