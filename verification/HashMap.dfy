/**
 The chained hash map behind every scope (src/core/hashmap.c): a fixed table of head entries, each starting a
 list of entries whose keys share a bucket.  Looking up an absent key in a bucket that is in use walks past the
 last entry and dereferences NULL (hashmap.c:133-141); the model returns that as an outcome of its own.
*/
module HashMap {
  import opened Ir

  class Entry {
    var key: Option<string>  // None is the NULL key of an unused head
    var value: int
    var next: Entry?

    constructor (key: Option<string>, value: int)
      ensures this.key == key && this.value == value && this.next == null
    {
      this.key, this.value, this.next := key, value, null;
    }
  }

  datatype Lookup<T> = Found(value: T) | NotFound | NullDereference

  const FNV_BASIS: bv32 := 2166136261
  const FNV_PRIME: bv32 := 16777619

  function HashByte(h: bv32, b: bv32): bv32 {
    (h ^ b) * FNV_PRIME
  }

  function HashStep(h: bv32, c: char): bv32 {
    HashByte(h, ((c as int) % 256) as bv32)
  }

  function HashFrom(h: bv32, s: string): bv32
    decreases |s|
  {
    if s == "" then h else HashFrom(HashStep(h, s[0]), s[1..])
  }

  function Bucket(key: string, size: nat): (b: nat)
    requires size > 0
    ensures b < size
  {
    HashFrom(FNV_BASIS, key) as nat % size
  }

  /** The FNV-1a loop. */
  method HashString(s: string) returns (h: bv32)
    ensures h == HashFrom(FNV_BASIS, s)
  {
    hide HashStep;
    h := FNV_BASIS;
    var i := 0;
    while i < |s|
      invariant i <= |s| && HashFrom(h, s[i..]) == HashFrom(FNV_BASIS, s)
    {
      h := HashStep(h, s[i]);
      i := i + 1;
    }
  }

  method BucketIndex(key: string, size: nat) returns (b: nat)
    requires size > 0
    ensures b == Bucket(key, size)
  {
    hide HashFrom;
    var h := HashString(key);
    b := h as nat % size;
  }

  datatype Cell = Cell(key: Option<string>, value: int, next: Entry?)

  /** A picture of the entries: the heads, the chains behind them, and every entry's place, key and link. */
  datatype Links = Links(
    heads: seq<Entry>,
    chains: seq<seq<Entry>>,         // the entries of every bucket, head first
    place: map<Entry, (nat, nat)>,   // where each entry is: no entry is in two places
    entries: map<string, Entry>,     // the entry holding each key
    cells: map<Entry, Cell>)
  {
    /** The finite map held. */
    ghost function Contents(): map<string, int>
      requires WellFormed()
    {
      map key | key in entries :: cells[entries[key]].value
    }

    /** Each chain starts at its head, ends in NULL, and holds distinct keys that hash to its bucket. */
    ghost predicate WellFormed()
      ensures WellFormed() ==> |heads| == |chains| > 0 && cells.Keys == place.Keys
      ensures WellFormed() ==> forall key :: key in entries ==> entries[key] in place && cells[entries[key]].key == Some(key)
      ensures WellFormed() ==> forall b :: 0 <= b < |chains| ==> |chains[b]| > 0 && chains[b][0] == heads[b]
    {
      && |heads| == |chains| > 0 && cells.Keys == place.Keys
      && (forall b :: 0 <= b < |chains| ==> |chains[b]| > 0 && chains[b][0] == heads[b])
      && (forall b, k :: 0 <= b < |chains| && 0 <= k < |chains[b]| ==> Placed(b, k))
      && (forall key :: key in entries ==> Stored(key))
    }

    /** The entry at k in bucket b is linked to its successor and is the one holding its key. */
    ghost predicate Placed(b: nat, k: nat)
      requires cells.Keys == place.Keys && b < |chains| && k < |chains[b]|
    {
      var e := chains[b][k];
      && e in place && place[e] == (b, k)
      && cells[e].next == (if k + 1 < |chains[b]| then chains[b][k + 1] else null)
      && match cells[e].key
         case None => |chains[b]| == 1
         case Some(key) => key in entries && entries[key] == e && Bucket(key, |chains|) == b
    }

    ghost predicate Stored(key: string)
      requires cells.Keys == place.Keys && |chains| > 0 && key in entries
    {
      && entries[key] in place && cells[entries[key]].key == Some(key)
      && entries[key] in chains[Bucket(key, |chains|)]
    }

    ghost predicate InUse(b: nat)
      requires |chains| > 0
    {
      exists key :: key in entries && Bucket(key, |chains|) == b
    }

    ghost function Set(e: Entry, value: int): Links
      requires e in cells
    {
      this.(cells := cells[e := cells[e].(value := value)])
    }

    ghost function Fill(key: string, value: int, e: Entry): Links {
      this.(entries := entries[key := e], cells := cells[e := Cell(Some(key), value, null)])
    }

    ghost function Append(key: string, value: int, b: nat, last: Entry, added: Entry): Links
      requires b < |chains| && last in cells
    {
      Links(heads, chains[b := chains[b] + [added]], place[added := (b, |chains[b]|)], entries[key := added],
            cells[last := cells[last].(next := added)][added := Cell(Some(key), value, null)])
    }

    /** What a walk along a chain meets. */
    lemma Meets(b: nat, k: nat)
      requires WellFormed() && b < |chains| && k < |chains[b]|
      ensures var e := chains[b][k];
              && e in place && cells[e].next == (if k + 1 < |chains[b]| then chains[b][k + 1] else null)
              && match cells[e].key
                 case None => |chains[b]| == 1
                 case Some(key) => key in entries && entries[key] == e && InUse(b)
    {
      hide Bucket;
      assert Placed(b, k);
    }

    /** A key no entry of its bucket holds is not in the map. */
    lemma Absent(key: string, b: nat)
      requires WellFormed() && b == Bucket(key, |chains|)
      requires forall k :: 0 <= k < |chains[b]| ==> chains[b][k] in cells ==> cells[chains[b][k]].key != Some(key)
      ensures key !in entries
    {
      hide Bucket;
      assert key in entries ==> Stored(key);
    }

    lemma UnusedHead(b: nat)
      requires WellFormed() && b < |chains| && heads[b] in cells && cells[heads[b]].key == None
      ensures |chains[b]| == 1 && !InUse(b) && forall key :: key in entries ==> Bucket(key, |chains|) != b
    {
      hide Bucket;
      assert Placed(b, 0);
      assert forall key :: key in entries ==> Stored(key);
    }

    /** Giving one entry a key and a value changes the map at that key alone. */
    lemma Updates(l: Links, key: string, value: int, e: Entry)
      requires WellFormed() && l.WellFormed()
      requires l.entries == entries[key := e] && e in l.cells && l.cells[e].value == value
      requires forall o :: o in cells && o != e ==> o in l.cells && l.cells[o].value == cells[o].value
      ensures l.Contents() == Contents()[key := value]
    {
      hide WellFormed;
      forall other | other in l.entries
        ensures l.Contents()[other] == Contents()[key := value][other]
      {
        assert l.cells[l.entries[key]].key == Some(key) && l.cells[l.entries[other]].key == Some(other);
      }
    }

    lemma SetKeeps(key: string, value: int)
      requires WellFormed() && key in entries
      ensures Set(entries[key], value).WellFormed()
    {
      hide Bucket;
      var l := Set(entries[key], value);
      forall c: nat, k: nat | c < |chains| && k < |chains[c]|
        ensures l.Placed(c, k)
      {
        assert Placed(c, k);
      }
      forall other | other in entries
        ensures l.Stored(other)
      {
        assert Stored(other);
      }
    }

    lemma FillKeeps(key: string, value: int, b: nat)
      requires WellFormed() && b == Bucket(key, |chains|) && heads[b] in cells && cells[heads[b]].key == None
      ensures Fill(key, value, heads[b]).WellFormed()
    {
      hide Bucket;
      UnusedHead(b);
      assert Placed(b, 0);
      var l := Fill(key, value, heads[b]);
      forall c: nat, k: nat | c < |chains| && k < |chains[c]|
        ensures l.Placed(c, k)
      {
        assert Placed(c, k);
      }
      forall other | other in l.entries
        ensures l.Stored(other)
      {
        assert other != key ==> Stored(other);
      }
    }

    /** Unused heads alone hold nothing. */
    lemma UnusedHeads()
      requires |heads| == |chains| > 0 && cells.Keys == place.Keys && entries == map[]
      requires forall b :: 0 <= b < |chains| ==>
                 && chains[b] == [heads[b]] && heads[b] in place && place[heads[b]] == (b, 0)
                 && cells[heads[b]].key == None && cells[heads[b]].next == null
      ensures WellFormed() && Contents() == map[]
    {
    }

    lemma AppendKeeps(key: string, value: int, b: nat, last: Entry, added: Entry)
      requires WellFormed() && b == Bucket(key, |chains|) && key !in entries && added !in place
      requires last == chains[b][|chains[b]| - 1] && last in cells && cells[last].key != None
      ensures Append(key, value, b, last, added).WellFormed()
    {
      hide Bucket;
      var l := Append(key, value, b, last, added);
      assert Placed(b, |chains[b]| - 1);
      forall c: nat, k: nat | c < |l.chains| && k < |l.chains[c]|
        ensures l.Placed(c, k)
      {
        assert c != b || k < |chains[b]| ==> Placed(c, k);
      }
      forall other | other in l.entries
        ensures l.Stored(other)
      {
        assert other != key ==> Stored(other);
      }
    }
  }

  class HashMap {
    const table: array<Entry>
    ghost var chains: seq<seq<Entry>>
    ghost var place: map<Entry, (nat, nat)>
    ghost var entries: map<string, Entry>

    ghost function Picture(): Links
      reads this, table, place.Keys
    {
      Links(table[..], chains, place, entries,
            map e | e in place :: Cell(e.key, e.value, e.next))
    }

    ghost predicate Valid()
      reads this, table, place.Keys
    {
      Picture().WellFormed()
    }

    ghost function Contents(): map<string, int>
      requires Valid()
      reads this, table, place.Keys
    {
      Picture().Contents()
    }

    constructor (size: nat)
      requires size > 0
      ensures Valid() && fresh(table) && fresh(place.Keys) && table.Length == size && Contents() == map[]
    {
      var first := new Entry(None, 0);
      table := new Entry[size](_ => first);
      chains, place, entries := [], map[], map[];
      new;
      var heads: seq<Entry> := [];
      for i := 0 to size
        invariant |heads| == |chains| == i && fresh(table) && table.Length == size && entries == map[]
        invariant forall e :: e in place ==> fresh(e) && place[e].0 < i
        invariant forall b :: 0 <= b < i ==> table[b] == heads[b] && chains[b] == [heads[b]]
        invariant forall b :: 0 <= b < i ==> heads[b] in place && place[heads[b]] == (b, 0)
        invariant forall b :: 0 <= b < i ==> heads[b].key == None && heads[b].next == null
      {
        var head := new Entry(None, 0);
        table[i] := head;
        heads, chains, place := heads + [head], chains + [[head]], place[head := (i, 0)];
      }
      hide Links.WellFormed, Links.Contents;
      Picture().UnusedHeads();
    }

    /** Writing through a returned entry changes the value of that entry's key alone. */
    method SetValue(ghost key: string, entry: Entry, value: int)
      requires Valid() && key in entries && entries[key] == entry
      modifies entry`value
      ensures Valid() && Contents() == old(Contents())[key := value]
    {
      hide Bucket, Links.WellFormed, Links.Contents;
      ghost var l := Picture();
      l.SetKeeps(key, value);
      entry.value := value;
      assert Picture() == l.Set(entry, value);
      l.Updates(Picture(), key, value, entry);
    }

    /** An unused head takes the pair itself. */
    method Fill(key: string, value: int, ghost b: nat, head: Entry)
      requires Valid() && b == Bucket(key, |chains|) && head == table[b] && head in place && head.key == None
      modifies this`entries, head
      ensures Valid() && Contents() == old(Contents())[key := value] && entries == old(entries)[key := head]
    {
      hide Bucket, Links.WellFormed, Links.Contents;
      ghost var l := Picture();
      l.FillKeeps(key, value, b);
      head.key, head.value, head.next := Some(key), value, null;
      entries := entries[key := head];
      assert Picture() == l.Fill(key, value, head);
      l.Updates(Picture(), key, value, head);
    }

    /** A new entry behind the last one of its bucket. */
    method Append(key: string, value: int, ghost b: nat, last: Entry) returns (added: Entry)
      requires Valid() && b == Bucket(key, |chains|) && key !in entries
      requires last == chains[b][|chains[b]| - 1] && last in place && last.key != None
      modifies this, last`next
      ensures Valid() && Contents() == old(Contents())[key := value] && entries == old(entries)[key := added]
      ensures place.Keys == old(place.Keys) + {added} && fresh(added)
    {
      hide Bucket, Links.WellFormed, Links.Contents;
      ghost var l := Picture();
      added := new Entry(Some(key), value);
      l.AppendKeeps(key, value, b, last, added);
      last.next := added;
      chains, place, entries := chains[b := chains[b] + [added]], place[added := (b, |chains[b]|)], entries[key := added];
      assert Picture() == l.Append(key, value, b, last, added);
      l.Updates(Picture(), key, value, added);
    }

    /** The chain walked to the entry of the key, or else to its end. */
    method Walk(key: string, b: nat) returns (e: Entry)
      requires Valid() && b == Bucket(key, |chains|) && table[b] in place && table[b].key != None
      ensures e in place
      ensures if e.key == Some(key) then key in entries && entries[key] == e
              else key !in entries && e == chains[b][|chains[b]| - 1] && e.key != None
    {
      hide Bucket, Links.WellFormed, Links.InUse;
      e := table[b];
      ghost var l, k := Picture(), 0;
      while true
        invariant k < |chains[b]| && e == chains[b][k]
        invariant forall j :: 0 <= j < k ==> chains[b][j].key != Some(key)
        invariant e.key == None ==> k == 0
        decreases |chains[b]| - k
      {
        l.Meets(b, k);
        if e.key == Some(key) || e.next == null {
          break;
        }
        e, k := e.next, k + 1;
        l.Meets(b, k);
      }
      if e.key != Some(key) {
        l.Absent(key, b);
      }
    }

    method Insert(key: string, value: int) returns (e: Entry)
      requires Valid()
      modifies this, place.Keys
      ensures Valid() && fresh(place.Keys - old(place.Keys)) && old(place.Keys) <= place.Keys
      ensures Contents() == old(Contents())[key := value]
      ensures key in entries && entries[key] == e
    {
      hide Bucket, Links.WellFormed, Links.Contents, Links.InUse;
      var b := BucketIndex(key, table.Length);
      Picture().Meets(b, 0);
      e := table[b];
      if e.key == None {
        Fill(key, value, b, e);
        return;
      }
      e := Chain(key, value, b);
    }

    /** A bucket in use: the entry of the key is written, or a new one appended. */
    method Chain(key: string, value: int, b: nat) returns (e: Entry)
      requires Valid() && b == Bucket(key, |chains|) && table[b] in place && table[b].key != None
      modifies this, place.Keys
      ensures Valid() && fresh(place.Keys - old(place.Keys)) && old(place.Keys) <= place.Keys
      ensures Contents() == old(Contents())[key := value]
      ensures key in entries && entries[key] == e
    {
      hide Bucket, Links.WellFormed, Links.Contents, Links.InUse;
      e := Walk(key, b);
      if e.key == Some(key) {
        SetValue(key, e, value);
        return;
      }
      e := Append(key, value, b, e);
    }

    /** The value of a key, or what goes wrong: a key is safely absent only if no stored key shares its bucket. */
    method Get(key: string) returns (r: Lookup<int>)
      requires Valid()
      ensures r == if key in Contents() then Found(Contents()[key])
                   else if Picture().InUse(Bucket(key, |chains|)) then NullDereference
                   else NotFound
    {
      hide Bucket, Links.WellFormed, Links.InUse;
      var b := BucketIndex(key, table.Length);
      var entry := table[b];
      ghost var l, k := Picture(), 0;
      while entry.key != None
        invariant k < |chains[b]| && entry == chains[b][k]
        invariant forall j :: 0 <= j < k ==> chains[b][j].key != Some(key)
        decreases |chains[b]| - k
      {
        l.Meets(b, k);
        if entry.key == Some(key) {
          return Found(entry.value);
        }
        if entry.next == null {
          l.Absent(key, b);
          return NullDereference;
        }
        entry, k := entry.next, k + 1;
      }
      l.Meets(b, k);
      l.UnusedHead(b);
      r := NotFound;
    }

    /** The entry of a key, through which callers write (ir.c:262, 413). */
    method GetEntry(key: string) returns (r: Lookup<Entry>)
      requires Valid()
      ensures r == if key in entries then Found(entries[key])
                   else if Picture().InUse(Bucket(key, |chains|)) then NullDereference
                   else NotFound
    {
      hide Bucket, Links.WellFormed, Links.Contents, Links.InUse;
      var b := BucketIndex(key, table.Length);
      var entry := table[b];
      ghost var l, k := Picture(), 0;
      while entry.key != None
        invariant k < |chains[b]| && entry == chains[b][k]
        invariant forall j :: 0 <= j < k ==> chains[b][j].key != Some(key)
        decreases |chains[b]| - k
      {
        l.Meets(b, k);
        if entry.key == Some(key) {
          return Found(entry);
        }
        if entry.next == null {
          l.Absent(key, b);
          return NullDereference;
        }
        entry, k := entry.next, k + 1;
      }
      l.Meets(b, k);
      l.UnusedHead(b);
      r := NotFound;
    }
  }

  /** A history of insertions, applied in order to an empty map. */
  function Inserted(history: seq<(string, int)>): map<string, int> {
    if history == [] then map[]
    else Inserted(history[..|history| - 1])[history[|history| - 1].0 := history[|history| - 1].1]
  }

  /** The last insertion of a key decides its value, and only inserted keys are there. */
  lemma {:induction false} LastInsertWins(history: seq<(string, int)>, i: nat, key: string)
    requires i <= |history|
    requires forall j :: i <= j < |history| ==> history[j].0 != key
    ensures if i > 0 && history[i - 1].0 == key
              then key in Inserted(history) && Inserted(history)[key] == history[i - 1].1
              else i == 0 ==> key !in Inserted(history)
    decreases |history|
  {
    if i < |history| {
      LastInsertWins(history[..|history| - 1], i, key);
    }
  }

  /** Any history of insertions refines to the finite map it describes. */
  method Replay(size: nat, history: seq<(string, int)>) returns (m: HashMap)
    requires size > 0
    ensures fresh(m) && m.Valid() && m.Contents() == Inserted(history)
  {
    hide Links.WellFormed, HashMap.Contents, HashMap.Valid;
    m := new HashMap(size);
    var i := 0;
    while i < |history|
      invariant i <= |history| && fresh(m) && m.Valid() && fresh(m.place.Keys)
      invariant m.Contents() == Inserted(history[..i])
    {
      var _ := m.Insert(history[i].0, history[i].1);
      assert history[..i + 1][..i] == history[..i];
      i := i + 1;
    }
    assert history[..i] == history;
  }

  /** The size of every table of names (type_checker.c:14). */
  const TABLE_SIZE: nat := 1024

  lemma StepIs(h: bv32, c: char, b: bv32)
    requires ((c as int) % 256) as bv32 == b
    ensures HashStep(h, c) == HashByte(h, b)
  {
    hide HashByte;
  }

  lemma BytesAre()
    ensures HashByte(FNV_BASIS, 120) == 4245442695 && HashByte(FNV_BASIS, 105) == 3960223172
    ensures HashByte(3960223172, 121) == 1412995207
  {
  }

  lemma HashesAre()
    ensures HashFrom(FNV_BASIS, "x") == 4245442695 && HashFrom(FNV_BASIS, "iy") == 1412995207
  {
    hide HashStep, HashByte;
    BytesAre();
    StepIs(FNV_BASIS, 'x', 120);
    StepIs(FNV_BASIS, 'i', 105);
    StepIs(3960223172, 'y', 121);
    HashOne("x", FNV_BASIS, 4245442695);
    HashOne("iy", FNV_BASIS, 3960223172);
    HashOne("y", 3960223172, 1412995207);
    assert "iy"[1..] == "y" && "x"[1..] == "" && "y"[1..] == "";
  }

  lemma SameRemainder()
    ensures (4245442695 as bv32) as nat % TABLE_SIZE == (1412995207 as bv32) as nat % TABLE_SIZE
  {
  }

  lemma SharedBucket()
    ensures Bucket("x", TABLE_SIZE) == Bucket("iy", TABLE_SIZE)
  {
    hide HashFrom;
    HashesAre();
    SameRemainder();
  }

  lemma HashOne(s: string, h: bv32, next: bv32)
    requires s != "" && HashStep(h, s[0]) == next
    ensures HashFrom(h, s) == HashFrom(next, s[1..])
  {
    hide HashStep;
  }

  /** A name that is not there: with only `x` declared, `iy` is looked up past the end of the chain of `x`. */
  method LookupPastTheEnd() returns (r: Lookup<int>)
    ensures r == NullDereference
  {
    hide Links.WellFormed, Bucket;
    var scope := new HashMap(TABLE_SIZE);
    var _ := scope.Insert("x", 1);
    assert scope.Contents().Keys == {"x"};
    SharedBucket();
    assert scope.Picture().InUse(Bucket("x", TABLE_SIZE));
    r := scope.Get("iy");
  }
}
