/**
 * The slot array both photo receivers fill: a JavaScript array created with
 * `new Array(chunks)`, whose unfilled entries are holes, and the in-order concatenation
 * that turns a full array into the image bytes.
 *
 * Three facts of the JavaScript array shape the receivers' behaviour:
 *  - `Array.prototype.some`, `filter` and `reduce` skip holes, so a guard written as
 *    `chunks.some(c => !c)` only ever sees stored chunks, which are objects and so never
 *    falsy: the guard is always false;
 *  - `for (const c of chunks)` does visit holes, as `undefined`, and `jpeg.set(undefined, …)`
 *    throws a `TypeError`;
 *  - writing past the end extends the array, leaving holes in between.
 */
module Reassembly {
  import opened Wrappers
  import opened WireCodec

  type Chunk = seq<byte>

  /** A sparse array of chunks; `None` is a hole. */
  type Slots = seq<Option<Chunk>>

  /** `new Array(n)` throws a `RangeError` for any length above this one. */
  const MaxArrayLength: nat := 4294967295

  /** `new Array(n)`: `n` holes. */
  function Holes(n: nat): (s: Slots)
    ensures |s| == n
    ensures forall k :: 0 <= k < n ==> s[k].None?
  {
    seq(n, _ => None)
  }

  /** `!chunks[i]`: slot `i` is a hole or lies past the end of the array. */
  predicate SlotEmpty(s: Slots, i: nat) {
    i >= |s| || s[i].None?
  }

  /** The intended completeness condition: every slot holds a chunk. */
  predicate AllFilled(s: Slots) {
    forall k :: 0 <= k < |s| ==> s[k].Some?
  }

  /** `chunks[i] = c`: an index past the end grows the array, with holes in between. */
  function JsArraySet(s: Slots, i: nat, c: Chunk): (r: Slots)
    ensures |r| == if i < |s| then |s| else i + 1
    ensures r[i] == Some(c)
    ensures forall k :: 0 <= k < |r| && k != i ==> r[k] == (if k < |s| then s[k] else None)
  {
    if i < |s| then s[i := Some(c)] else s + Holes(i - |s|) + [Some(c)]
  }

  /** `if (!chunks[i]) chunks[i] = c`: the first chunk stored in a slot stays there. */
  function StoreFirst(s: Slots, i: nat, c: Chunk): (r: Slots)
    ensures i < |r| && r[i] == (if SlotEmpty(s, i) then Some(c) else s[i])
    ensures |r| == if i < |s| then |s| else i + 1
    ensures forall k :: 0 <= k < |r| && k != i ==> r[k] == (if k < |s| then s[k] else None)
  {
    if SlotEmpty(s, i) then JsArraySet(s, i, c) else s
  }

  /** A second chunk for a slot that already holds one changes nothing. */
  lemma StoreFirstKeepsFirst(s: Slots, i: nat, c1: Chunk, c2: Chunk)
    ensures StoreFirst(StoreFirst(s, i, c1), i, c2) == StoreFirst(s, i, c1)
  {
  }

  /** Stores into two different slots of the array commute. */
  lemma StoreFirstCommutes(s: Slots, i: nat, j: nat, c1: Chunk, c2: Chunk)
    requires i != j && i < |s| && j < |s|
    ensures StoreFirst(StoreFirst(s, i, c1), j, c2) == StoreFirst(StoreFirst(s, j, c2), i, c1)
  {
    var a := StoreFirst(StoreFirst(s, i, c1), j, c2);
    var b := StoreFirst(StoreFirst(s, j, c2), i, c1);
    assert |a| == |b|;
    forall k | 0 <= k < |a| ensures a[k] == b[k] {
    }
  }

  /** `chunks.filter(Boolean).length`: the number of stored chunks. */
  function Filled(s: Slots): (n: nat)
    ensures n <= |s|
    ensures n == |s| <==> AllFilled(s)
  {
    if s == [] then 0
    else
      var n := Filled(s[..|s| - 1]) + (if s[|s| - 1].Some? then 1 else 0);
      assert AllFilled(s) <==> AllFilled(s[..|s| - 1]) && s[|s| - 1].Some?;
      n
  }

  /** Holes add nothing to the count. */
  lemma {:induction false} FilledHoles(s: Slots, m: nat)
    ensures Filled(s + Holes(m)) == Filled(s)
    decreases m
  {
    if m > 0 {
      var t := s + Holes(m);
      assert t[..|t| - 1] == s + Holes(m - 1);
      FilledHoles(s, m - 1);
    } else {
      assert s + Holes(m) == s;
    }
  }

  /** Replacing one slot changes the count by the difference in that slot alone. */
  lemma {:induction false} FilledUpdate(s: Slots, i: nat, c: Chunk)
    requires i < |s|
    ensures Filled(s[i := Some(c)]) == Filled(s) + (if s[i].None? then 1 else 0)
    decreases |s|
  {
    var t := s[i := Some(c)];
    if i < |s| - 1 {
      assert t[..|t| - 1] == s[..|s| - 1][i := Some(c)];
      FilledUpdate(s[..|s| - 1], i, c);
    } else {
      assert t[..|t| - 1] == s[..|s| - 1];
    }
  }

  /** A store raises the count by one exactly when it lands in an empty slot. */
  lemma FilledStoreFirst(s: Slots, i: nat, c: Chunk)
    ensures Filled(StoreFirst(s, i, c)) == Filled(s) + (if SlotEmpty(s, i) then 1 else 0)
  {
    if SlotEmpty(s, i) {
      if i < |s| {
        FilledUpdate(s, i, c);
      } else {
        var r := StoreFirst(s, i, c);
        assert r[..|r| - 1] == s + Holes(i - |s|);
        FilledHoles(s, i - |s|);
      }
    }
  }

  /** `chunks.reduce((a, c) => a + c.length, 0)`: the total length of the stored chunks. */
  function PresentLength(s: Slots): nat {
    if s == [] then 0
    else PresentLength(s[..|s| - 1]) + (if s[|s| - 1].Some? then |s[|s| - 1].value| else 0)
  }

  /** A prefix of the array holds no more bytes than the whole array. */
  lemma {:induction false} PresentLengthPrefix(s: Slots, i: nat)
    requires i <= |s|
    ensures PresentLength(s[..i]) <= PresentLength(s)
    decreases |s|
  {
    if i < |s| {
      assert s[..|s| - 1][..i] == s[..i];
      PresentLengthPrefix(s[..|s| - 1], i);
    } else {
      assert s[..i] == s;
    }
  }

  /** The stored chunks one after the other, in slot order. */
  function Concat(s: Slots): (r: Chunk)
    requires AllFilled(s)
    ensures |r| == PresentLength(s)
  {
    if s == [] then [] else Concat(s[..|s| - 1]) + s[|s| - 1].value
  }

  /** Each chunk sits in the concatenation right after the chunks of the slots before it. */
  lemma {:induction false} ConcatPlacesChunk(s: Slots, i: nat)
    requires AllFilled(s) && i < |s|
    ensures PresentLength(s[..i]) + |s[i].value| <= |Concat(s)|
    ensures Concat(s)[PresentLength(s[..i])..PresentLength(s[..i]) + |s[i].value|] == s[i].value
    decreases |s|
  {
    var last := |s| - 1;
    var init := s[..last];
    var p := PresentLength(s[..i]);
    if i < last {
      assert init[..i] == s[..i];
      ConcatPlacesChunk(init, i);
      assert Concat(s)[..|Concat(init)|] == Concat(init);
    } else {
      assert s[..i] == init;
    }
  }

  /** Truthiness of a stored chunk: a typed array is an object, and objects are never falsy. */
  predicate Truthy(c: Chunk) { true }

  /** `chunks.some(c => !c)`: the callback runs for stored chunks only, never for a hole. */
  predicate SomeFalsyChunk(s: Slots) {
    exists k :: 0 <= k < |s| && s[k].Some? && !Truthy(s[k].value)
  }

  /** The "some slot is empty" guard never fires, however many holes are left. */
  lemma SomeFalsyChunkNever(s: Slots)
    ensures !SomeFalsyChunk(s)
  {
  }

  /** `jpeg.set(chunk, offset)`: copies `chunk` into `a` from `offset` on. */
  method SetAt(a: array<byte>, chunk: Chunk, offset: nat)
    requires offset + |chunk| <= a.Length
    modifies a
    ensures a[..] == old(a[..offset]) + chunk + old(a[offset + |chunk|..])
  {
    forall k | 0 <= k < |chunk| {
      a[offset + k] := chunk[k];
    }
  }

  /**
   * The assembly loop: a buffer of `total` bytes, then for each slot in order `jpeg.set(c,
   * offset)` and `offset += c.length`. A hole reaches `set` as `undefined` and throws; the
   * outcome is then `None`. With every slot filled the buffer is the concatenation.
   */
  method Assemble(slots: Slots, total: nat) returns (r: Option<Chunk>)
    requires total == PresentLength(slots)
    ensures r.Some? <==> AllFilled(slots)
    ensures r.Some? ==> r.value == Concat(slots) && |r.value| == total
  {
    var jpeg := new byte[total];
    var offset := 0;
    var i := 0;
    while i < |slots|
      invariant 0 <= i <= |slots|
      invariant AllFilled(slots[..i])
      invariant offset == PresentLength(slots[..i]) <= total
      invariant jpeg.Length == total
      invariant jpeg[..offset] == Concat(slots[..i])
    {
      if slots[i].None? {
        assert !AllFilled(slots);
        return None;
      }
      var chunk := slots[i].value;
      assert slots[..i + 1][..i] == slots[..i];
      PresentLengthPrefix(slots, i + 1);
      ghost var before := jpeg[..offset];
      SetAt(jpeg, chunk, offset);
      assert jpeg[..offset + |chunk|] == before + chunk;
      offset := offset + |chunk|;
      i := i + 1;
    }
    assert slots[..i] == slots;
    return Some(jpeg[..]);
  }
}
