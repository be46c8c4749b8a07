/** The ordered hash map: a list of entries in the order of insertion, and an open-addressing index that
 finds a key's position in it. */
module OrderedMap {
  import opened Bytecode
  import opened JitWords
  import opened Options

  /** `Other` are the keys that maps do not take. */
  datatype Key = Str(s: string) | IntKey(n: int) | BoolKey(b: bool) | Other

  /** A slot of the index: a key's hash and its position, or `NPOS`. */
  const NPOS := -1
  datatype KeySlot = KeySlot(h: nat, pos: int)

  const EMPTY_SLOT := KeySlot(0, NPOS)

  // ---------------------------------------------------------------- association lists

  type Assoc<V> = seq<(Key, V)>

  /** The position of a key, or the length of the list. */
  function Position<V>(es: Assoc<V>, k: Key): (p: nat)
    ensures p <= |es|
    ensures p < |es| ==> es[p].0 == k
    ensures forall q :: 0 <= q < p ==> es[q].0 != k
  {
    if es == [] || es[0].0 == k then 0 else 1 + Position(es[1..], k)
  }

  predicate Has<V>(es: Assoc<V>, k: Key) { Position(es, k) < |es| }

  function Lookup<V>(es: Assoc<V>, k: Key): Option<V> {
    if Has(es, k) then Some(es[Position(es, k)].1) else None
  }

  /** A new value in the key's old place, or the key at the end; unsupported keys are ignored. */
  function Insert<V>(es: Assoc<V>, k: Key, v: V): Assoc<V> {
    if k == Other then es
    else if Has(es, k) then es[Position(es, k) := (es[Position(es, k)].0, v)]
    else es + [(k, v)]
  }

  function Delete<V>(es: Assoc<V>, k: Key): Assoc<V> {
    if Has(es, k) then es[..Position(es, k)] + es[Position(es, k) + 1..] else es
  }

  predicate Unique<V>(es: Assoc<V>) {
    (forall p, q :: 0 <= p < q < |es| ==> es[p].0 != es[q].0) && forall p :: 0 <= p < |es| ==> es[p].0 != Other
  }

  lemma PositionIs<V>(es: Assoc<V>, p: nat)
    requires Unique(es) && p < |es|
    ensures Position(es, es[p].0) == p
  {
  }

  lemma InsertUnique<V>(es: Assoc<V>, k: Key, v: V)
    requires Unique(es)
    ensures Unique(Insert(es, k, v))
  {
  }

  lemma DeleteUnique<V>(es: Assoc<V>, k: Key)
    requires Unique(es)
    ensures Unique(Delete(es, k))
  {
  }

  /** What was stored is found, and nothing else has changed. */
  lemma LookupInsert<V>(es: Assoc<V>, k: Key, v: V, x: Key)
    requires Unique(es)
    ensures Lookup(Insert(es, k, v), x) == if x == k && k != Other then Some(v) else Lookup(es, x)
  {
    var fs := Insert(es, k, v);
    InsertUnique(es, k, v);
    if Has(es, x) {
      var p := Position(es, x);
      assert fs[p].0 == x;
      PositionIs(fs, p);
    } else if k != Other && !Has(es, k) && x == k {
      assert fs[|es|].0 == x;
      PositionIs(fs, |es|);
    }
  }

  /** What was removed is gone, and nothing else. */
  lemma LookupDelete<V>(es: Assoc<V>, k: Key, x: Key)
    requires Unique(es)
    ensures Lookup(Delete(es, k), x) == if x == k then None else Lookup(es, x)
  {
    var fs, d := Delete(es, k), Position(es, k);
    DeleteUnique(es, k);
    if Has(es, x) && x != k {
      var p := Position(es, x);
      var q := if Has(es, k) && p > d then p - 1 else p;
      assert fs[q].0 == x;
      PositionIs(fs, q);
    } else {
      forall q | 0 <= q < |fs| ensures fs[q].0 != x {
        assert fs[q] == es[if Has(es, k) && q >= d then q + 1 else q];
      }
    }
  }

  /** Order: storing under a known key keeps every place, a new key comes last, removing closes the gap. */
  lemma OrderKept<V>(es: Assoc<V>, k: Key, v: V)
    requires Unique(es) && k != Other
    ensures var fs := Insert(es, k, v);
      && (forall p :: 0 <= p < |es| ==> fs[p].0 == es[p].0 && (es[p].0 != k ==> fs[p] == es[p]))
      && (if Has(es, k) then |fs| == |es| else |fs| == |es| + 1 && fs[|es|] == (k, v))
    ensures var gs, d := Delete(es, k), Position(es, k);
      Has(es, k) ==> |gs| == |es| - 1 && forall p :: 0 <= p < |gs| ==> gs[p] == es[if p < d then p else p + 1]
  {
    hide Position;
  }

  // ---------------------------------------------------------------- the index

  /** Slot `d` places behind `b`, around the end. */
  function Behind(b: nat, d: nat, cap: nat): nat {
    var over := b + d - cap;
    if over < 0 then b + d else over
  }

  function Distance(b: nat, i: nat, cap: nat): nat
    requires b < cap && i < cap
  {
    if i >= b then i - b else i + cap - b
  }

  predicate PowerOfTwo(c: nat) { exists n: nat :: n < c && c == Pow2(n) }

  /** The low bits of a hash. */
  function Masked(h: nat, cap: nat): nat
    requires cap > 0
  {
    BitAnd(h, cap - 1)
  }

  lemma MaskIs(h: nat, cap: nat)
    requires PowerOfTwo(cap)
    ensures cap > 0 && Masked(h, cap) < cap
    ensures h < cap ==> Masked(h, cap) == h
    ensures Masked(cap, cap) == 0
  {
    hide BitAnd, Pow2;
    var n: nat :| n < cap && cap == Pow2(n);
    AndMask(h, n);
    AndMask(cap, n);
    ModUnique(cap, cap, 1, 0);
    if h < cap { ModUnique(h, cap, 0, h); }
  }

  /** The slots from `b` up to `i` are all in use. */
  predicate Chain(t: seq<KeySlot>, b: nat, i: nat)
    requires b < |t| && i < |t|
  {
    forall d: nat :: d < Distance(b, i, |t|) ==> t[Behind(b, d, |t|)].pos >= 0
  }

  /** The index `t` seats positions at the slots `w`: each is found from its hash on, along slots in use. */
  ghost predicate Seated(t: seq<KeySlot>, w: map<int, nat>) {
    && (forall i :: 0 <= i < |t| ==> t[i].pos >= NPOS)
    && (forall i :: 0 <= i < |t| && t[i].pos >= 0 ==> t[i].pos in w && w[t[i].pos] == i)
    && (forall p :: p in w ==> p >= 0 && w[p] < |t| && t[w[p]].pos == p && InChain(t, w[p]))
  }

  predicate InChain(t: seq<KeySlot>, i: nat)
    requires i < |t|
  {
    Masked(t[i].h, |t|) < |t| && Chain(t, Masked(t[i].h, |t|), i)
  }

  function Used(t: seq<KeySlot>): nat {
    if t == [] then 0 else (if t[0].pos >= 0 then 1 else 0) + Used(t[1..])
  }

  lemma {:induction false} FreeSlot(t: seq<KeySlot>) returns (e: nat)
    requires Used(t) < |t|
    ensures e < |t| && t[e].pos < 0
  {
    if t[0].pos < 0 { e := 0; } else { e := FreeSlot(t[1..]); e := e + 1; }
  }

  lemma {:induction false} UsedMore(t: seq<KeySlot>, i: nat, s: KeySlot)
    requires i < |t| && t[i].pos < 0 && s.pos >= 0
    ensures Used(t[i := s]) == Used(t) + 1
  {
    if i > 0 {
      assert t[i := s][1..] == t[1..][i - 1 := s];
      UsedMore(t[1..], i - 1, s);
    } else {
      assert t[i := s][1..] == t[1..];
    }
  }

  lemma {:induction false} UsedNone(t: seq<KeySlot>)
    requires forall i :: 0 <= i < |t| ==> t[i].pos < 0
    ensures Used(t) == 0
  {
    if t != [] { UsedNone(t[1..]); }
  }

  /** A slot put to use at the first free place from its hash on. */
  lemma SeatMore(t: seq<KeySlot>, w: map<int, nat>, i: nat, s: KeySlot)
    requires PowerOfTwo(|t|) && Seated(t, w) && i < |t| && t[i].pos < 0 && s.pos >= 0 && s.pos !in w
    requires Masked(s.h, |t|) < |t| && Chain(t, Masked(s.h, |t|), i)
    ensures Seated(t[i := s], w[s.pos := i])
  {
    var u, v := t[i := s], w[s.pos := i];
    forall p | p in v ensures p >= 0 && v[p] < |u| && u[v[p]].pos == p && InChain(u, v[p]) {
      var j := v[p];
      if p != s.pos {
        assert j == w[p] && t[j].pos == p && j != i;
        assert InChain(t, j);
      }
      var b := Masked(u[j].h, |u|);
      forall d: nat | d < Distance(b, j, |u|) ensures u[Behind(b, d, |u|)].pos >= 0 {
        assert t[Behind(b, d, |t|)].pos >= 0;
      }
    }
  }

  // ---------------------------------------------------------------- the class

  class MapObject<V(0)> {
    var entries: seq<(Key, V)>
    var index: seq<KeySlot>
    var indexUsed: nat
    var boolIndex: seq<int>
    /** Any hash function. */
    const hash: Key -> nat
    /** The slot of each position that has one. */
    ghost var seats: map<int, nat>

    ghost predicate Valid()
      reads this
    {
      && Unique(entries) && Seated(index, seats) && SeatsMatch(entries, |entries|) && BoolsMatch(entries, |entries|)
      && indexUsed == Used(index) && (index == [] || (PowerOfTwo(|index|) && |index| >= 8))
      && (index == [] || indexUsed * 10 < |index| * 7)
    }

    /** The string and integer keys among the first `n` entries have seats under their hashes, and
        nothing else has. */
    ghost predicate SeatsMatch(es: seq<(Key, V)>, n: nat)
      requires n <= |es|
      reads this
    {
      && (forall p :: p in seats <==> 0 <= p < n && !es[p].0.BoolKey?)
      && (forall p :: p in seats ==> seats[p] < |index| && index[seats[p]].h == hash(es[p].0))
    }

    ghost predicate BoolsMatch(es: seq<(Key, V)>, n: nat)
      requires n <= |es|
      reads this
    {
      |boolIndex| == 2 && BoolMatch(es, n, false) && BoolMatch(es, n, true)
    }

    ghost predicate BoolMatch(es: seq<(Key, V)>, n: nat, b: bool)
      requires n <= |es| && |boolIndex| == 2
      reads this
    {
      var p := boolIndex[if b then 1 else 0];
      if p == NPOS then forall q :: 0 <= q < n ==> es[q].0 != BoolKey(b)
      else 0 <= p < n && es[p].0 == BoolKey(b)
    }

    constructor (h: Key -> nat)
      ensures Valid() && entries == [] && hash == h
    {
      entries, index, indexUsed, boolIndex, hash := [], [], 0, [NPOS, NPOS], h;
      seats := map[];
    }

    /** The slot of the entry that `key` has, or the first free slot from its hash on. */
    method ProbeSlot(h: nat, key: Key) returns (i: nat)
      requires Unique(entries) && Seated(index, seats) && SeatsMatch(entries, |entries|)
      requires PowerOfTwo(|index|) && Used(index) < |index|
      requires h == hash(key) && !key.BoolKey? && key != Other
      ensures i < |index|
      ensures index[i].pos >= 0 ==> index[i].pos == Position(entries, key) < |entries|
      ensures index[i].pos == NPOS || index[i].pos >= 0
      ensures index[i].pos == NPOS ==>
          !Has(entries, key) && Masked(h, |index|) < |index| && Chain(index, Masked(h, |index|), i)
    {
      hide Seated, SeatsMatch, PowerOfTwo, Used, Unique, Position, Masked, Chain;
      var cap := |index|;
      MaskIs(h, cap);
      var home := Masked(h, cap);
      i := home;
      ghost var d: nat := 0;
      ghost var free := FreeSlot(index);
      SlotsInRange();
      while index[i].pos != NPOS && !(index[i].h == h && entries[index[i].pos].0 == key)
        invariant i < cap && i == Behind(home, d, cap) && d < cap && Distance(home, i, cap) == d
        invariant forall x: nat :: x < d ==> Passed(Behind(home, x, cap), h, key)
        decreases Distance(i, free, cap)
      {
        MaskIs(i + 1, cap);
        assert Passed(i, h, key);
        i := Masked(i + 1, cap);
        assert free == Behind(home, Distance(home, free, cap), cap);
        d := d + 1;
      }
      if index[i].pos != NPOS {
        PositionIs(entries, index[i].pos);
      } else {
        NotThere(h, key, i, d);
      }
    }

    lemma SlotsInRange()
      requires Seated(index, seats) && SeatsMatch(entries, |entries|)
      ensures forall i :: 0 <= i < |index| ==> index[i].pos == NPOS || 0 <= index[i].pos < |entries|
    {
    }

    /** All slots from a key's hash up to a free one are other keys': the key is not there. */
    lemma NotThere(h: nat, key: Key, i: nat, d: nat)
      requires Unique(entries) && Seated(index, seats) && SeatsMatch(entries, |entries|)
      requires i < |index| && index[i].pos < 0 && h == hash(key) && !key.BoolKey?
      requires Masked(h, |index|) < |index|
      requires i == Behind(Masked(h, |index|), d, |index|) && d == Distance(Masked(h, |index|), i, |index|)
      requires forall x: nat :: x < d ==> Passed(Behind(Masked(h, |index|), x, |index|), h, key)
      ensures !Has(entries, key) && Chain(index, Masked(h, |index|), i)
    {
      var cap, home := |index|, Masked(h, |index|);
      forall p | 0 <= p < |entries| ensures entries[p].0 != key {
        if !entries[p].0.BoolKey? {
          assert p in seats;
          var j := seats[p];
          assert InChain(index, j);
          var b := Masked(index[j].h, cap);
          var dj := Distance(b, j, cap);
          assert j == Behind(b, dj, cap);
          assert d < dj ==> index[Behind(b, d, cap)].pos >= 0;
          assert dj < d && b == home ==> Passed(Behind(home, dj, cap), h, key);
        }
      }
    }

    /** A slot in use, by another key. */
    ghost predicate Passed(i: nat, h: nat, key: Key)
      reads this
    {
      i < |index| && index[i].pos >= 0
        && !(index[i].h == h && index[i].pos < |entries| && entries[index[i].pos].0 == key)
    }

    /** Puts a slot to use at the first free place from its hash on. */
    method SeatSlot(s: KeySlot)
      requires PowerOfTwo(|index|) && Seated(index, seats) && Used(index) < |index| && s.pos >= 0 && s.pos !in seats
      modifies this`index, this`seats
      ensures |index| == |old(index)| && Seated(index, seats) && Used(index) == old(Used(index)) + 1
      ensures s.pos in seats && seats == old(seats)[s.pos := seats[s.pos]] && seats[s.pos] < |index|
          && index[seats[s.pos]] == s
      ensures forall i :: 0 <= i < |index| && i != seats[s.pos] ==> index[i] == old(index)[i]
      ensures forall p :: p in old(seats) ==> seats[p] != seats[s.pos]
    {
      hide PowerOfTwo, Used, Masked, Chain;
      var i := FirstFree(s.h);
      SeatMore(index, seats, i, s);
      UsedMore(index, i, s);
      SeatFree(i);
      index := index[i := s];
      seats := seats[s.pos := i];
    }

    /** The first free slot from a hash on. */
    method FirstFree(h: nat) returns (i: nat)
      requires PowerOfTwo(|index|) && Used(index) < |index| && forall i :: 0 <= i < |index| ==> index[i].pos >= NPOS
      ensures i < |index| && index[i].pos == NPOS && Masked(h, |index|) < |index| && Chain(index, Masked(h, |index|), i)
    {
      hide PowerOfTwo, Used, Masked;
      var cap := |index|;
      MaskIs(h, cap);
      var home := Masked(h, cap);
      i := home;
      ghost var d: nat := 0;
      ghost var free := FreeSlot(index);
      while index[i].pos != NPOS
        invariant i < cap && i == Behind(home, d, cap) && d < cap && Distance(home, i, cap) == d
        invariant forall x: nat :: x < d ==> index[Behind(home, x, cap)].pos >= 0
        decreases Distance(i, free, cap)
      {
        MaskIs(i + 1, cap);
        i := Masked(i + 1, cap);
        assert free == Behind(home, Distance(home, free, cap), cap);
        d := d + 1;
      }
    }

    /** Doubles the index; the hashes kept in the slots say where they go. */
    method IndexGrow()
      requires Valid()
      modifies this`index, this`seats
      ensures Valid() && |index| == if old(index) == [] then 8 else 2 * |old(index)|
    {
      hide Seated, Used, PowerOfTwo, Unique;
      var was := index;
      ghost var wasSeats := seats;
      SeatsOf(was, wasSeats);
      assert Used(was[..0]) == 0 by { UsedNone(was[..0]); }
      var ncap: nat := if index == [] then 8 else |index| * 2;
      DoublePower(|index|);
      EmptyTable(ncap);
      index := seq(ncap, _ => EMPTY_SLOT);
      seats := map[];
      var k := 0;
      while k < |was|
        invariant 0 <= k <= |was| && |index| == ncap && Seated(index, seats)
        invariant Used(index) == Used(was[..k]) <= k
        invariant forall p :: p in seats <==> p in wasSeats && wasSeats[p] < k
        invariant forall p :: p in seats ==> seats[p] < ncap && index[seats[p]].h == hash(entries[p].0)
      {
        UsedSnoc(was, k);
        if was[k].pos >= 0 {
          SeatSlot(was[k]);
        }
        k := k + 1;
      }
      assert was[..|was|] == was;
    }

    /** Builds the index again from the entries. */
    method RebuildIndex()
      requires Unique(entries)
      modifies this`index, this`indexUsed, this`boolIndex, this`seats
      ensures Valid()
    {
      hide Seated, Used, PowerOfTwo, Unique;
      var need := |entries| * 10 / 7 + 1;
      var ncap: nat := 8;
      DoublePower(0);
      while ncap < need
        invariant PowerOfTwo(ncap) && ncap >= 8
        decreases need - ncap
      {
        DoublePower(ncap);
        ncap := ncap * 2;
      }
      EmptyTable(ncap);
      index := seq(ncap, _ => EMPTY_SLOT);
      seats := map[];
      indexUsed := 0;
      boolIndex := [NPOS, NPOS];
      var p := 0;
      while p < |entries|
        invariant 0 <= p <= |entries| && |index| == ncap && Seated(index, seats)
        invariant indexUsed == Used(index) <= p
        invariant SeatsMatch(entries, p) && BoolsMatch(entries, p)
      {
        var k := entries[p].0;
        if k.BoolKey? {
          boolIndex := boolIndex[(if k.b then 1 else 0) := p];
        } else {
          SeatSlot(KeySlot(hash(k), p));
          indexUsed := indexUsed + 1;
        }
        p := p + 1;
      }
    }

    function IndexWantsGrow(): bool
      reads this
    {
      (indexUsed + 1) * 10 >= |index| * 7
    }

    /** Stores under a string or an integer. */
    method SetIndexed(key: Key, val: V)
      requires Valid() && (key.Str? || key.IntKey?)
      modifies this
      ensures Valid() && entries == Insert(old(entries), key, val)
    {
      if IndexWantsGrow() { IndexGrow(); }
      var h := hash(key);
      var i := ProbeSlot(h, key);
      if index[i].pos != NPOS {
        Overwrite(index[i].pos, key, val);
        return;
      }
      AppendSeated(i, h, key, val);
    }

    /** Gives a key's entry a new value. */
    method Overwrite(pos: nat, key: Key, val: V)
      requires Valid() && Has(entries, key) && pos == Position(entries, key) && key != Other
      modifies this`entries
      ensures Valid() && entries == Insert(old(entries), key, val)
    {
      hide Seated, Used, PowerOfTwo;
      InsertUnique(entries, key, val);
      entries := entries[pos := (entries[pos].0, val)];
    }

    /** A new entry, and the free slot found for it. */
    method AppendSeated(i: nat, h: nat, key: Key, val: V)
      requires Valid() && !Has(entries, key) && (key.Str? || key.IntKey?) && h == hash(key)
      requires i < |index| && index[i].pos == NPOS && Masked(h, |index|) < |index|
          && Chain(index, Masked(h, |index|), i)
      requires (indexUsed + 1) * 10 < |index| * 7
      modifies this
      ensures Valid() && entries == Insert(old(entries), key, val)
    {
      hide Seated, Used, PowerOfTwo, Chain;
      InsertUnique(entries, key, val);
      ghost var s := KeySlot(h, |entries|);
      SeatMore(index, seats, i, s);
      UsedMore(index, i, s);
      SeatFree(i);
      seats := seats[|entries| := i];
      index := index[i := KeySlot(h, |entries|)];
      indexUsed := indexUsed + 1;
      entries := entries + [(key, val)];
    }

    lemma SeatFree(i: nat)
      requires Seated(index, seats) && i < |index| && index[i].pos == NPOS
      ensures forall p :: p in seats ==> seats[p] != i
    {
    }

    method Set(key: Key, val: V)
      requires Valid()
      modifies this
      ensures Valid() && entries == Insert(old(entries), key, val)
    {
      match key {
        case Str(_) => SetIndexed(key, val);
        case IntKey(_) => SetIndexed(key, val);
        case BoolKey(b) =>
          SetBool(b, val);
        case Other =>
      }
    }

    method SetBool(b: bool, val: V)
      requires Valid()
      modifies this
      ensures Valid() && entries == Insert(old(entries), BoolKey(b), val)
    {
      var k := if b then 1 else 0;
      if boolIndex[k] != NPOS {
        PositionIs(entries, boolIndex[k]);
        Overwrite(boolIndex[k], BoolKey(b), val);
      } else {
        AppendBool(b, k, val);
      }
    }

    method AppendBool(b: bool, k: nat, val: V)
      requires Valid() && k == (if b then 1 else 0) && boolIndex[k] == NPOS
      modifies this`boolIndex, this`entries
      ensures Valid() && entries == Insert(old(entries), BoolKey(b), val)
    {
      hide Seated, Used, PowerOfTwo;
      InsertUnique(entries, BoolKey(b), val);
      assert BoolMatch(entries, |entries|, b);
      boolIndex := boolIndex[k := |entries|];
      entries := entries + [(BoolKey(b), val)];
    }

    /** The position of a key's entry, or `NPOS`. */
    method Find(key: Key) returns (pos: int)
      requires Valid()
      ensures pos == if Has(entries, key) then Position(entries, key) else NPOS
    {
      match key {
        case BoolKey(b) =>
          pos := boolIndex[if b then 1 else 0];
          if pos != NPOS { PositionIs(entries, pos); }
        case Other => pos := NPOS;
        case _ =>
          if index == [] {
            assert forall p :: 0 <= p < |entries| && !entries[p].0.BoolKey? ==> p in seats;
            return NPOS;
          }
          var i := ProbeSlot(hash(key), key);
          pos := index[i].pos;
      }
    }

    method Get(key: Key) returns (val: Option<V>)
      requires Valid()
      ensures val == Lookup(entries, key)
    {
      var pos := Find(key);
      val := if pos == NPOS then None else Some(entries[pos].1);
    }

    method Remove(key: Key) returns (found: bool)
      requires Valid()
      modifies this
      ensures Valid() && found == Has(old(entries), key) && entries == Delete(old(entries), key)
    {
      hide Position, Seated, Used, PowerOfTwo, SeatsMatch, BoolsMatch, Unique;
      var pos := Find(key);
      if pos == NPOS { return false; }
      DeleteUnique(entries, key);
      entries := entries[..pos] + entries[pos + 1..];
      RebuildIndex();
      found := true;
    }

    method Clear()
      modifies this
      ensures Valid() && entries == []
    {
      entries, index, indexUsed, boolIndex := [], [], 0, [NPOS, NPOS];
      seats := map[];
    }

    /** A copy takes over the index as it is. */
    method CopyFrom(src: MapObject<V>)
      requires src.Valid() && src.hash == hash
      modifies this
      ensures Valid() && entries == old(src.entries)
    {
      entries := src.entries;
      index, indexUsed, boolIndex := src.index, src.indexUsed, src.boolIndex;
      seats := src.seats;
    }
  }

  lemma SeatsOf(t: seq<KeySlot>, w: map<int, nat>)
    requires Seated(t, w)
    ensures forall i :: 0 <= i < |t| ==> t[i].pos >= NPOS && (t[i].pos >= 0 ==> t[i].pos in w && w[t[i].pos] == i)
    ensures forall p :: p in w ==> p >= 0 && w[p] < |t| && t[w[p]].pos == p
  {
  }

  lemma DoublePower(c: nat)
    ensures PowerOfTwo(c) ==> PowerOfTwo(2 * c)
    ensures PowerOfTwo(8)
  {
    assert Pow2(3) == 8;
    if PowerOfTwo(c) {
      var n: nat :| n < c && c == Pow2(n);
      assert Pow2(n + 1) == 2 * c;
    }
  }

  lemma EmptyTable(cap: nat)
    ensures var t := seq(cap, _ => EMPTY_SLOT); Used(t) == 0 && Seated(t, map[])
  {
    UsedNone(seq(cap, _ => EMPTY_SLOT));
  }

  lemma {:induction false} UsedSnoc(t: seq<KeySlot>, k: nat)
    requires k < |t|
    ensures Used(t[..k + 1]) == Used(t[..k]) + if t[k].pos >= 0 then 1 else 0
    decreases k
  {
    if k > 0 {
      assert t[..k + 1][1..] == t[1..][..k] && t[..k][1..] == t[1..][..k - 1];
      UsedSnoc(t[1..], k - 1);
    } else {
      assert t[..1][1..] == [] && t[..0] == [];
    }
  }
}
