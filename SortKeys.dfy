// The 64-bit sort key of the mesh sorter (MeshSorter::SortKey): a union of a
// uint64 value with the bitfields objectIdx:16, psoIdx:12, key:32, passID:4,
// laid out from the least significant bit. Keys are kept as their integer
// value, as the sorter's key vector keeps them, and sorted ascending.
module SortKeys {

  const OBJECT_SPAN: nat := 0x1_0000          // 2^16 values of objectIdx
  const PSO_SPAN: nat := 0x1000               // 2^12 values of psoIdx
  const KEY_SPAN: nat := 0x1_0000_0000        // 2^32 values of key
  const PASS_SPAN: nat := 0x10                // 2^4 values of passID
  const VALUE_SPAN: nat := 0x1_0000_0000_0000_0000

  /** Draw passes (MeshSorter::DrawPass); NUM_PASSES is kNumPasses. */
  const Z_PASS: nat := 0
  const OPAQUE_PASS: nat := 1
  const TRANSPARENT_PASS: nat := 2
  const NUM_PASSES: nat := 3

  datatype SortKey = SortKey(objectIdx: nat, psoIdx: nat, key: nat, passID: nat)

  /** Every field fits its bitfield. */
  predicate Fits(k: SortKey) {
    k.objectIdx < OBJECT_SPAN && k.psoIdx < PSO_SPAN && k.key < KEY_SPAN && k.passID < PASS_SPAN
  }

  /** The union's value for the given fields. */
  function Pack(k: SortKey): nat
    requires Fits(k)
  {
    k.objectIdx + 0x1_0000 * k.psoIdx + 0x1000_0000 * k.key + 0x1000_0000_0000_0000 * k.passID
  }

  /** The objectIdx bitfield of a value. */
  function ObjectOf(v: nat): nat {
    v % 0x1_0000
  }

  /** The psoIdx bitfield of a value. */
  function PsoOf(v: nat): nat {
    (v / 0x1_0000) % 0x1000
  }

  /** The pass a key value belongs to (its passID bitfield). */
  function PassOf(v: nat): nat
    requires v < VALUE_SPAN
  {
    v / 0x1000_0000_0000_0000
  }

  /** The fields the union shows for a value. */
  function Unpack(v: nat): (k: SortKey)
    requires v < VALUE_SPAN
    ensures Fits(k)
  {
    SortKey(ObjectOf(v), PsoOf(v), (v / 0x1000_0000) % 0x1_0000_0000, PassOf(v))
  }

  /** The 32-bit complement the sorter stores for transparent meshes (~dist). */
  function Complement(d: nat): nat
    requires d < KEY_SPAN
  {
    KEY_SPAN - 1 - d
  }

  /** Reading the fields of a packed key gives them back, and the value fits 64 bits. */
  lemma UnpackPack(k: SortKey)
    requires Fits(k)
    ensures Pack(k) < VALUE_SPAN && Unpack(Pack(k)) == k
  {
    var v := Pack(k);
    assert v / 0x1_0000 == k.psoIdx + 0x1000 * k.key + 0x1000_0000_0000 * k.passID;
    assert v / 0x1000_0000 == k.key + 0x1_0000_0000 * k.passID;
    assert v / 0x1000_0000_0000_0000 == k.passID;
  }

  /** Writing back the fields of a value gives the value. */
  lemma PackUnpack(v: nat)
    requires v < VALUE_SPAN
    ensures Pack(Unpack(v)) == v
  {
  }

  /** A larger value never belongs to an earlier pass. */
  lemma PassMonotone(v: nat, w: nat)
    requires v <= w < VALUE_SPAN
    ensures PassOf(v) <= PassOf(w)
  {
  }

  /** Keys of an earlier pass sort first: every Z key before every opaque key before every transparent key. */
  lemma {:induction false} EarlierPassSortsFirst(a: SortKey, b: SortKey)
    requires Fits(a) && Fits(b) && a.passID < b.passID
    ensures Pack(a) < Pack(b)
  {
  }

  /** Within one pass, a smaller distance key sorts first. */
  lemma {:induction false} SmallerKeySortsFirst(a: SortKey, b: SortKey)
    requires Fits(a) && Fits(b) && a.passID == b.passID && a.key < b.key
    ensures Pack(a) < Pack(b)
  {
  }

  /** Transparent keys hold the complemented distance, so a farther mesh sorts before a nearer one. */
  lemma {:induction false} FartherTransparentFirst(a: SortKey, b: SortKey, distA: nat, distB: nat)
    requires distA < KEY_SPAN && distB < KEY_SPAN && distB < distA
    requires Fits(a) && Fits(b) && a.passID == b.passID == TRANSPARENT_PASS
    requires a.key == Complement(distA) && b.key == Complement(distB)
    ensures Pack(a) < Pack(b)
  {
    SmallerKeySortsFirst(a, b);
  }

  // ---------------------------------------------------------------------
  // Counting keys by pass.

  /** Ascending order of the key values. */
  predicate Sorted(s: seq<nat>) {
    forall i, j :: 0 <= i < j < |s| ==> s[i] <= s[j]
  }

  predicate AllKeys(s: seq<nat>) {
    forall i :: 0 <= i < |s| ==> s[i] < VALUE_SPAN
  }

  /** Number of keys in s whose pass lies in [lo, hi). */
  function Tally(s: seq<nat>, lo: nat, hi: nat): nat
    requires AllKeys(s)
    decreases |s|
  {
    if s == [] then 0
    else Tally(s[..|s| - 1], lo, hi) + (if lo <= PassOf(s[|s| - 1]) < hi then 1 else 0)
  }

  lemma {:induction false} TallyBound(s: seq<nat>, lo: nat, hi: nat)
    requires AllKeys(s)
    ensures Tally(s, lo, hi) <= |s|
    ensures (forall i :: 0 <= i < |s| ==> lo <= PassOf(s[i]) < hi) ==> Tally(s, lo, hi) == |s|
    decreases |s|
  {
    if s != [] {
      TallyBound(s[..|s| - 1], lo, hi);
    }
  }

  lemma {:induction false} TallyAppend(a: seq<nat>, b: seq<nat>, lo: nat, hi: nat)
    requires AllKeys(a) && AllKeys(b)
    ensures AllKeys(a + b)
    ensures Tally(a + b, lo, hi) == Tally(a, lo, hi) + Tally(b, lo, hi)
    decreases |b|
  {
    if b == [] {
      assert a + b == a;
    } else {
      assert (a + b)[..|a + b| - 1] == a + b[..|b| - 1];
      TallyAppend(a, b[..|b| - 1], lo, hi);
    }
  }

  /** Appending one key adds one to the count of its pass range. */
  lemma TallyPush(s: seq<nat>, v: nat, lo: nat, hi: nat)
    requires AllKeys(s) && v < VALUE_SPAN
    ensures AllKeys(s + [v])
    ensures Tally(s + [v], lo, hi) == Tally(s, lo, hi) + (if lo <= PassOf(v) < hi then 1 else 0)
  {
    assert (s + [v])[..|s|] == s;
  }

  /** An empty pass range counts nothing. */
  lemma {:induction false} TallyNone(s: seq<nat>, lo: nat, hi: nat)
    requires AllKeys(s) && hi <= lo
    ensures Tally(s, lo, hi) == 0
    decreases |s|
  {
    if s != [] {
      TallyNone(s[..|s| - 1], lo, hi);
    }
  }

  /** Adjacent ranges of passes add up. */
  lemma {:induction false} TallySplit(s: seq<nat>, lo: nat, mid: nat, hi: nat)
    requires AllKeys(s) && lo <= mid <= hi
    ensures Tally(s, lo, hi) == Tally(s, lo, mid) + Tally(s, mid, hi)
    decreases |s|
  {
    if s != [] {
      TallySplit(s[..|s| - 1], lo, mid, hi);
    }
  }

  /** In a sorted key sequence, the keys of passes below p are exactly its first Tally(s, 0, p) keys. */
  lemma {:induction false} SortedPassPrefix(s: seq<nat>, p: nat, i: nat)
    requires AllKeys(s) && Sorted(s) && i < |s|
    ensures PassOf(s[i]) < p <==> i < Tally(s, 0, p)
    decreases |s|
  {
    var init := s[..|s| - 1];
    var last := s[|s| - 1];
    TallyBound(init, 0, p);
    if PassOf(last) < p {
      forall j | 0 <= j < |init|
        ensures PassOf(init[j]) < p
      {
        PassMonotone(init[j], last);
      }
      PassMonotone(s[i], last);
    } else if i < |s| - 1 {
      SortedPassPrefix(init, p, i);
    }
  }

  /** In a sorted key sequence the keys of pass q occupy exactly the index range [Tally(s, 0, q), Tally(s, 0, q + 1)). */
  lemma {:induction false} SortedPassBlock(s: seq<nat>, q: nat, i: nat)
    requires AllKeys(s) && Sorted(s) && i < |s|
    ensures PassOf(s[i]) == q <==> Tally(s, 0, q) <= i < Tally(s, 0, q) + Tally(s, q, q + 1)
  {
    SortedPassPrefix(s, q, i);
    SortedPassPrefix(s, q + 1, i);
    TallySplit(s, 0, q, q + 1);
  }

  // ---------------------------------------------------------------------
  // The sort itself (std::sort with operator< on the values).

  function Insert(x: nat, s: seq<nat>): (r: seq<nat>)
    ensures multiset(r) == multiset(s) + multiset{x}
    ensures |r| == |s| + 1
    ensures r[0] == x || (s != [] && r[0] == s[0])
    decreases |s|
  {
    if s == [] || x <= s[0] then [x] + s
    else
      assert s == [s[0]] + s[1..];
      [s[0]] + Insert(x, s[1..])
  }

  lemma {:induction false} InsertSorted(x: nat, s: seq<nat>)
    requires Sorted(s)
    ensures Sorted(Insert(x, s))
    decreases |s|
  {
    if s != [] && x > s[0] {
      InsertSorted(x, s[1..]);
      var t := Insert(x, s[1..]);
      assert s[0] <= t[0];
      assert Insert(x, s) == [s[0]] + t;
    }
  }

  lemma {:induction false} InsertTally(x: nat, s: seq<nat>, lo: nat, hi: nat)
    requires AllKeys(s) && x < VALUE_SPAN
    ensures AllKeys(Insert(x, s))
    ensures Tally(Insert(x, s), lo, hi) == Tally(s, lo, hi) + (if lo <= PassOf(x) < hi then 1 else 0)
    decreases |s|
  {
    if s != [] && x > s[0] {
      InsertTally(x, s[1..], lo, hi);
      TallyAppend([s[0]], Insert(x, s[1..]), lo, hi);
      TallyAppend([s[0]], s[1..], lo, hi);
      assert [s[0]] + s[1..] == s;
    } else {
      TallyAppend([x], s, lo, hi);
    }
    assert [x][..0] == [];
    if s != [] {
      assert [s[0]][..0] == [];
    }
  }

  /** The ascending rearrangement of the key values. */
  function SortValues(s: seq<nat>): (r: seq<nat>)
    ensures multiset(r) == multiset(s)
    ensures |r| == |s|
    decreases |s|
  {
    if s == [] then []
    else
      assert s == [s[0]] + s[1..];
      Insert(s[0], SortValues(s[1..]))
  }

  /** Sorting yields an ascending permutation with the same number of keys in every pass range. */
  lemma {:induction false} SortValuesSpec(s: seq<nat>, lo: nat, hi: nat)
    requires AllKeys(s)
    ensures Sorted(SortValues(s))
    ensures AllKeys(SortValues(s)) && Tally(SortValues(s), lo, hi) == Tally(s, lo, hi)
    decreases |s|
  {
    if s != [] {
      SortValuesSpec(s[1..], lo, hi);
      InsertSorted(s[0], SortValues(s[1..]));
      InsertTally(s[0], SortValues(s[1..]), lo, hi);
      TallyAppend([s[0]], s[1..], lo, hi);
      assert [s[0]] + s[1..] == s;
      assert [s[0]][..0] == [];
    }
  }
}
