/** structlayout-optimize: laying out the fields of a struct with padding, and the order of fields
    for which the struct is smallest. Sizes and offsets are unbounded integers. */
module Layout {
  datatype Field = Field(name: nat, size: int, align: int, start: int, end: int, isPadding: bool)

  // ----- alignment -----

  ghost predicate Multiple(x: int, a: int) {
    exists k :: x == k * a
  }

  /** align: the smallest y >= x that is a multiple of a. */
  function AlignUp(x: int, a: int): (y: int)
    requires a >= 1
    ensures x <= y < x + a && Multiple(y, a)
  {
    var y := x + a - 1;
    assert y - y % a == (y / a) * a;
    y - y % a
  }

  lemma AlignUpLeast(x: int, a: int, z: int)
    requires a >= 1 && x <= z && Multiple(z, a)
    ensures AlignUp(x, a) <= z
  {
    var k :| z == k * a;
    var m :| AlignUp(x, a) == m * a;
    TimesMono(k, m, a);
  }

  lemma TimesMono(k: int, m: int, a: int)
    requires a >= 1
    ensures k < m ==> k * a + a <= m * a
    ensures m <= k ==> m * a <= k * a
  {
    if k < m {
      TimesGap(k + 1, m, a);
      assert (k + 1) * a == k * a + a;
    } else {
      TimesGap(m, k, a);
    }
  }

  lemma {:induction false} TimesGap(k: int, m: int, a: int)
    requires a >= 1 && k <= m
    ensures k * a <= m * a
    decreases m - k
  {
    if k < m {
      TimesGap(k, m - 1, a);
      assert m * a == (m - 1) * a + a;
    }
  }

  lemma AlignUpMono(x: int, z: int, a: int)
    requires a >= 1 && x <= z
    ensures AlignUp(x, a) <= AlignUp(z, a)
  {
    AlignUpLeast(x, a, AlignUp(z, a));
  }

  lemma MultipleSum(x: int, y: int, a: int)
    requires Multiple(x, a) && Multiple(y, a)
    ensures Multiple(x + y, a)
  {
    var j :| x == j * a;
    var k :| y == k * a;
    assert x + y == (j + k) * a;
  }

  lemma MultipleOf(x: int, a: int, b: int)
    requires Multiple(x, a) && Multiple(a, b)
    ensures Multiple(x, b)
  {
    var j :| x == j * a;
    var k :| a == k * b;
    assert x == (j * k) * b;
  }

  ghost predicate PowerOfTwo(a: int) {
    a == 1 || (a > 1 && a % 2 == 0 && PowerOfTwo(a / 2))
  }

  lemma {:induction false} PowersDivide(a: int, b: int)
    requires PowerOfTwo(a) && PowerOfTwo(b) && b <= a
    ensures Multiple(a, b)
  {
    if b == 1 {
      assert a == a * b;
    } else {
      PowersDivide(a / 2, b / 2);
      var k :| a / 2 == k * (b / 2);
      assert a == k * b;
    }
  }

  // ----- offsets -----

  ghost predicate Legal(fields: seq<Field>) {
    forall i :: 0 <= i < |fields| ==> fields[i].align >= 1 && fields[i].size >= 0 && !fields[i].isPadding
  }

  /** Where the first n fields end when each is placed at the next multiple of its alignment. */
  ghost function End(fields: seq<Field>, n: nat): (pos: int)
    requires Legal(fields) && n <= |fields|
    ensures pos >= 0
  {
    if n == 0 then 0 else AlignUp(End(fields, n - 1), fields[n - 1].align) + fields[n - 1].size
  }

  ghost function Offset(fields: seq<Field>, i: nat): (o: int)
    requires Legal(fields) && i < |fields|
  {
    AlignUp(End(fields, i), fields[i].align)
  }

  method OffsetsOf(fields: seq<Field>) returns (offsets: seq<int>)
    requires Legal(fields)
    ensures |offsets| == |fields| && forall i :: 0 <= i < |fields| ==> offsets[i] == Offset(fields, i)
  {
    offsets := [];
    var o := 0;
    for i := 0 to |fields|
      invariant |offsets| == i && o == End(fields, i) && forall j :: 0 <= j < i ==> offsets[j] == Offset(fields, j)
    {
      o := AlignUp(o, fields[i].align);
      offsets := offsets + [o];
      o := o + fields[i].size;
    }
  }

  ghost function MaxAlign(fields: seq<Field>, n: nat): (a: int)
    requires n <= |fields|
    ensures a >= 1 && (a == 1 || exists i :: 0 <= i < n && fields[i].align == a) && forall i :: 0 <= i < n ==> fields[i].align <= a
  {
    if n == 0 then 1 else if fields[n - 1].align > MaxAlign(fields, n - 1) then fields[n - 1].align else MaxAlign(fields, n - 1)
  }

  /** The size of the struct. */
  ghost function Total(fields: seq<Field>): (t: int)
    requires Legal(fields)
  {
    AlignUp(End(fields, |fields|), MaxAlign(fields, |fields|))
  }

  // ----- padding -----

  /** The pieces follow each other without gap or overlap from 0 to pos. */
  ghost predicate Tiles(out: seq<Field>, pos: int) {
    && pos == (if out == [] then 0 else out[|out| - 1].end)
    && forall k :: 0 <= k < |out| ==> Follows(out, k)
  }

  ghost predicate Follows(out: seq<Field>, k: nat) {
    k < |out| && out[k].start == (if k == 0 then 0 else out[k - 1].end) && out[k].end == out[k].start + out[k].size && out[k].size >= 0
  }

  /** The pieces that are fields. */
  ghost function Fields(out: seq<Field>): (r: seq<Field>) {
    if out == [] then [] else Fields(out[..|out| - 1]) + (if out[|out| - 1].isPadding then [] else [out[|out| - 1]])
  }

  /** The first n fields at their offsets. */
  ghost predicate Placed(r: seq<Field>, fields: seq<Field>, n: nat)
    requires Legal(fields)
  {
    n == |r| <= |fields| && forall i {:trigger PlacedAt(r, fields, i)} :: 0 <= i < n ==> PlacedAt(r, fields, i)
  }

  ghost predicate PlacedAt(r: seq<Field>, fields: seq<Field>, i: nat)
    requires Legal(fields) && i < |r| && i < |fields|
  {
    r[i] == fields[i].(start := Offset(fields, i), end := Offset(fields, i) + fields[i].size)
  }

  ghost function SizeOf(fields: seq<Field>): (n: int) {
    if fields == [] then 0 else SizeOf(fields[..|fields| - 1]) + fields[|fields| - 1].size
  }

  method Size(fields: seq<Field>) returns (n: int)
    ensures n == SizeOf(fields)
  {
    n := 0;
    for i := 0 to |fields|
      invariant n == SizeOf(fields[..i])
    {
      assert fields[..i + 1][..i] == fields[..i];
      n := n + fields[i].size;
    }
    assert fields[..|fields|] == fields;
  }

  lemma {:induction false} TilesSize(out: seq<Field>, pos: int)
    requires Tiles(out, pos)
    ensures SizeOf(out) == pos
  {
    if out != [] {
      var n := |out| - 1;
      assert Follows(out, n);
      forall k | 0 <= k < n ensures Follows(out[..n], k) {
        assert Follows(out, k);
      }
      TilesSize(out[..n], out[n].start);
    }
  }

  lemma TilesMore(out: seq<Field>, pos: int, f: Field)
    requires Tiles(out, pos) && f.start == pos && f.end == pos + f.size && f.size >= 0
    ensures Tiles(out + [f], f.end) && Fields(out + [f]) == Fields(out) + (if f.isPadding then [] else [f])
  {
    assert (out + [f])[..|out|] == out;
    forall k | 0 <= k < |out + [f]| ensures Follows(out + [f], k) {
      if k < |out| { assert Follows(out, k); }
    }
  }

  function Padding(start: int, end: int): (f: Field) {
    Field(0, end - start, 0, start, end, true)
  }

  /** pad: the pieces tile the struct; the fields are in order, each at the first multiple of its
      alignment after the one before, and the struct ends at a multiple of the largest alignment. */
  method Pad(fields: seq<Field>) returns (out: seq<Field>)
    requires Legal(fields)
    ensures Tiles(out, if fields == [] then 0 else Total(fields))
    ensures Placed(Fields(out), fields, |fields|)
    ensures forall i :: 0 <= i < |Fields(out)| ==> Multiple(Fields(out)[i].start, Fields(out)[i].align)
  {
    out := [];
    if fields == [] { return; }
    var pos, alignment := 0, 1;
    var offsets := OffsetsOf(fields);
    for i := 0 to |fields|
      invariant (i > 0 ==> out != []) && pos == End(fields, i) && alignment == MaxAlign(fields, i) && Tiles(out, pos) && Placed(Fields(out), fields, i)
    {
      if fields[i].align > alignment {
        alignment := fields[i].align;
      }
      ghost var before := Fields(out);
      out, pos := PadField(out, pos, offsets[i], fields[i]);
      PlacedMore(before, Fields(out), fields, i);
    }
    out := PadEnd(out, pos, alignment);
    PlacedAligned(Fields(out), fields);
  }

  /** One field, with padding in front of it if it does not start at pos. */
  method PadField(out: seq<Field>, pos: int, offset: int, f: Field) returns (out': seq<Field>, pos': int)
    requires Tiles(out, pos) && pos <= offset && f.size >= 0 && !f.isPadding
    ensures Tiles(out', pos') && pos' == offset + f.size && Fields(out') == Fields(out) + [f.(start := offset, end := offset + f.size)]
  {
    out', pos' := out, pos;
    if offset > pos {
      TilesMore(out, pos, Padding(pos, offset));
      out', pos' := out + [Padding(pos, offset)], offset;
      assert Fields(out) + [] == Fields(out);
    }
    var field := f.(start := pos', end := pos' + f.size);
    TilesMore(out', pos', field);
    out', pos' := out' + [field], pos' + f.size;
  }

  /** The padding at the end. */
  method PadEnd(out: seq<Field>, pos: int, alignment: int) returns (out': seq<Field>)
    requires Tiles(out, pos) && out != [] && alignment >= 1
    ensures Tiles(out', AlignUp(pos, alignment)) && Fields(out') == Fields(out)
  {
    out' := out;
    TilesSize(out, pos);
    var sz := Size(out);
    var pad := AlignUp(sz, alignment) - sz;
    if pad > 0 {
      var last := out[|out| - 1];
      TilesMore(out, pos, Padding(last.end, last.end + pad));
      out' := out + [Padding(last.end, last.end + pad)];
      assert Fields(out) + [] == Fields(out);
    }
  }

  lemma PlacedMore(r: seq<Field>, r': seq<Field>, fields: seq<Field>, i: nat)
    requires Legal(fields) && i < |fields| && Placed(r, fields, i)
    requires r' == r + [fields[i].(start := Offset(fields, i), end := Offset(fields, i) + fields[i].size)]
    ensures Placed(r', fields, i + 1)
  {
    forall j | 0 <= j < i + 1 ensures PlacedAt(r', fields, j) {
      assert j < i ==> PlacedAt(r, fields, j);
    }
  }

  lemma PlacedAligned(r: seq<Field>, fields: seq<Field>)
    requires Legal(fields) && Placed(r, fields, |fields|)
    ensures forall i :: 0 <= i < |r| ==> Multiple(r[i].start, r[i].align)
  {
    forall i | 0 <= i < |r| ensures Multiple(r[i].start, r[i].align) {
      assert PlacedAt(r, fields, i) && Multiple(Offset(fields, i), fields[i].align);
    }
  }

  // ----- the best order -----

  /** byAlignAndSize.Less. */
  predicate Less(f: Field, g: Field) {
    if f.size == 0 && g.size != 0 then true
    else if g.size == 0 && f.size != 0 then false
    else if f.align != g.align then f.align > g.align
    else if f.size != g.size then f.size > g.size
    else false
  }

  /** What a sort by Less guarantees. */
  ghost predicate Sorted(fields: seq<Field>) {
    forall i, j :: 0 <= i < j < |fields| ==> !Less(fields[j], fields[i])
  }

  /** Sorted means: fields without size first, then the more tightly aligned ones, then the larger. */
  lemma SortedMeans(fields: seq<Field>)
    ensures Sorted(fields) <==>
              forall i, j :: 0 <= i < j < |fields| ==>
                var f, g := fields[i], fields[j];
                if f.size == 0 && g.size != 0 then true
                else (g.size == 0 ==> f.size == 0) && f.align >= g.align && (f.align == g.align ==> f.size >= g.size)
  {
    forall i, j | 0 <= i < j < |fields|
      ensures !Less(fields[j], fields[i]) <==>
                var f, g := fields[i], fields[j];
                if f.size == 0 && g.size != 0 then true
                else (g.size == 0 ==> f.size == 0) && f.align >= g.align && (f.align == g.align ==> f.size >= g.size)
    {
    }
  }

  /** Less is a strict weak order, as a sort needs it. */
  lemma LessIsWeakOrder(f: Field, g: Field, h: Field)
    ensures !Less(f, f) && (Less(f, g) ==> !Less(g, f)) && (Less(f, g) && Less(g, h) ==> Less(f, h))
    ensures !Less(f, g) && !Less(g, f) && !Less(g, h) && !Less(h, g) ==> !Less(f, h) && !Less(h, f)
    ensures !Less(f, g) && !Less(g, f) <==> f.align == g.align && f.size == g.size
  {
  }

  /** Alignments are powers of two and sizes are multiples of them. */
  ghost predicate Regular(fields: seq<Field>) {
    Legal(fields) && forall i :: 0 <= i < |fields| ==> PowerOfTwo(fields[i].align) && Multiple(fields[i].size, fields[i].align)
  }

  /** In sorted order the fields before i end at a multiple of its alignment, without any padding. */
  lemma {:induction false} SortedEnd(fields: seq<Field>, n: nat)
    requires Regular(fields) && Sorted(fields) && n <= |fields|
    ensures End(fields, n) == SizeOf(fields[..n])
    ensures forall i :: n <= i < |fields| ==> Multiple(End(fields, n), fields[i].align)
  {
    if n == 0 {
      forall i | 0 <= i < |fields| ensures Multiple(0, fields[i].align) {
        assert 0 == 0 * fields[i].align;
      }
    } else {
      var f, e := fields[n - 1], End(fields, n - 1);
      SortedEnd(fields, n - 1);
      assert fields[..n][..n - 1] == fields[..n - 1];
      AlignUpLeast(e, f.align, e);
      forall i | n <= i < |fields| ensures Multiple(End(fields, n), fields[i].align) {
        var g := fields[i];
        if f.size != 0 {
          assert !Less(g, f);
          PowersDivide(f.align, g.align);
          MultipleOf(f.size, f.align, g.align);
          MultipleSum(e, f.size, g.align);
        }
      }
    }
  }

  lemma {:induction false} EndAtLeast(fields: seq<Field>, n: nat)
    requires Legal(fields) && n <= |fields|
    ensures End(fields, n) >= SizeOf(fields[..n])
  {
    if n > 0 {
      EndAtLeast(fields, n - 1);
      assert fields[..n][..n - 1] == fields[..n - 1];
    }
  }

  /** The sizes of a permutation have the same sum. */
  lemma {:induction false} SizePermuted(a: seq<Field>, b: seq<Field>)
    requires multiset(a) == multiset(b)
    ensures SizeOf(a) == SizeOf(b)
    decreases |a|
  {
    if a == [] {
      assert |multiset(b)| == 0;
    } else {
      var n, x := |a| - 1, a[|a| - 1];
      assert a == a[..n] + [x];
      assert x in multiset(b);
      var k :| 0 <= k < |b| && b[k] == x;
      var rest := b[..k] + b[k + 1..];
      assert b == b[..k] + [x] + b[k + 1..];
      assert multiset(a[..n]) == multiset(a) - multiset{x};
      assert multiset(rest) == multiset(b) - multiset{x};
      SizePermuted(a[..n], rest);
      SizeRemoved(b, k);
    }
  }

  lemma {:induction false} SizeRemoved(b: seq<Field>, k: nat)
    requires k < |b|
    ensures SizeOf(b) == SizeOf(b[..k] + b[k + 1..]) + b[k].size
    decreases |b|
  {
    var n := |b| - 1;
    if k == n {
      assert b[..k] + b[k + 1..] == b[..n];
    } else {
      SizeRemoved(b[..n], k);
      assert (b[..k] + b[k + 1..])[..n - 1] == b[..n][..k] + b[..n][k + 1..];
      assert (b[..k] + b[k + 1..])[n - 1] == b[n];
    }
  }

  lemma MaxAlignPermuted(a: seq<Field>, b: seq<Field>)
    requires multiset(a) == multiset(b)
    ensures MaxAlign(a, |a|) <= MaxAlign(b, |b|)
  {
    var m := MaxAlign(a, |a|);
    if m != 1 {
      var i :| 0 <= i < |a| && a[i].align == m;
      assert a[i] in multiset(b);
      var k :| 0 <= k < |b| && b[k] == a[i];
    }
  }

  /** optimize: among all orders of the fields, the sorted one makes the smallest struct. */
  lemma SortedIsSmallest(sorted: seq<Field>, other: seq<Field>)
    requires Regular(sorted) && Sorted(sorted) && Legal(other) && multiset(other) == multiset(sorted)
    ensures Total(sorted) <= Total(other)
  {
    var n, m := |sorted|, |other|;
    SortedEnd(sorted, n);
    EndAtLeast(other, m);
    assert sorted[..n] == sorted && other[..m] == other;
    SizePermuted(sorted, other);
    MaxAlignPermuted(sorted, other);
    MaxAlignPermuted(other, sorted);
    AlignUpMono(End(sorted, n), End(other, m), MaxAlign(sorted, n));
  }
}
