/** The fragmented byte buffer of the data path (bytes/iobuf.h): a list of
  * fragments, each a buffer with a used prefix and spare capacity, plus a
  * running byte count. Appends pack bytes into the spare room of the last
  * fragment or add fragments; prepends add whole fragments at the front. */
module IobufModel {
  import opened Common

  /** Allocation bounds of io_allocation_size (first and largest chunk). */
  const DefaultChunkSize: nat := 512
  const MaxChunkSize: nat := 128 * 1024

  /** Size of the next fragment to allocate for a request of `request` bytes:
    * never below the first chunk size, never above the largest chunk. */
  function NextAllocationSize(request: nat): (r: nat)
    ensures DefaultChunkSize <= r <= MaxChunkSize
    ensures request <= MaxChunkSize ==> request <= r
  {
    if request < DefaultChunkSize then DefaultChunkSize
    else if request > MaxChunkSize then MaxChunkSize
    else request
  }

  function Min(a: nat, b: nat): nat { if a <= b then a else b }

  /** One io_fragment: `data` is the used part of a buffer of `capacity` bytes. */
  datatype Fragment = Fragment(data: seq<byte>, capacity: nat) {
    predicate Valid() { |data| <= capacity }

    function Available(): nat
      requires Valid()
    {
      capacity - |data|
    }

    predicate IsEmpty() { |data| == 0 }

    /** Copies as much of `src` as fits and reports how much that was. */
    function Append(src: seq<byte>): (r: (Fragment, nat))
      requires Valid()
      ensures r.1 == Min(|src|, Available())
      ensures r.0.Valid() && r.0.capacity == capacity
      ensures r.0.data == data + src[..r.1]
    {
      var n := Min(|src|, Available());
      (Fragment(data + src[..n], capacity), n)
    }

    /** Gives up the spare capacity: afterwards nothing more fits. */
    function Trim(): (f: Fragment)
      ensures f.Valid() && f.Available() == 0 && f.data == data
    {
      Fragment(data, |data|)
    }

    function TrimFront(n: nat): (f: Fragment)
      requires Valid() && n <= |data|
      ensures f.Valid() && f.data == data[n..]
    {
      Fragment(data[n..], capacity - n)
    }

    /** Claims `n` bytes of the spare room for a placeholder. */
    function Reserve(n: nat): (f: Fragment)
      requires Valid() && n <= Available()
      ensures f.Valid() && f.capacity == capacity && f.data == data + Zeros(n)
    {
      Fragment(data + Zeros(n), capacity)
    }
  }

  /** A fragment built around a buffer it fills completely (`fragment::full`). */
  function Full(b: seq<byte>): (f: Fragment)
    ensures f.Valid() && f.data == b && f.Available() == 0
  {
    Fragment(b, |b|)
  }

  predicate AllValid(fs: seq<Fragment>)
  {
    forall i :: 0 <= i < |fs| ==> fs[i].Valid()
  }

  /** The bytes of a fragment list, front to back. */
  function Concat(fs: seq<Fragment>): seq<byte>
  {
    if fs == [] then [] else fs[0].data + Concat(fs[1..])
  }

  lemma {:induction false} ConcatAppend(a: seq<Fragment>, b: seq<Fragment>)
    ensures Concat(a + b) == Concat(a) + Concat(b)
  {
    if a != [] {
      assert (a + b)[1..] == a[1..] + b;
      ConcatAppend(a[1..], b);
    } else {
      assert a + b == b;
    }
  }

  lemma ConcatSnoc(a: seq<Fragment>, f: Fragment)
    ensures Concat(a + [f]) == Concat(a) + f.data
  {
    ConcatAppend(a, [f]);
    assert Concat([f]) == f.data + Concat([]);
  }

  lemma ConcatLast(a: seq<Fragment>)
    requires a != []
    ensures Concat(a) == Concat(a[..|a| - 1]) + a[|a| - 1].data
  {
    assert a == a[..|a| - 1] + [a[|a| - 1]];
    ConcatSnoc(a[..|a| - 1], a[|a| - 1]);
  }

  /** Each fragment replaced by a full fragment over its used bytes, which is
    * what moving a fragment through `share()` produces. */
  function Shared(fs: seq<Fragment>): (r: seq<Fragment>)
    ensures |r| == |fs| && AllValid(r)
    ensures forall i :: 0 <= i < |fs| ==> r[i] == Full(fs[i].data)
  {
    if fs == [] then [] else [Full(fs[0].data)] + Shared(fs[1..])
  }

  lemma {:induction false} SharedConcat(fs: seq<Fragment>)
    ensures Concat(Shared(fs)) == Concat(fs)
  {
    if fs != [] {
      SharedConcat(fs[1..]);
    }
  }

  /** Peeling fragment `k` off the suffix from `k`. */
  lemma SuffixStep(bs: seq<Fragment>, k: nat)
    requires k < |bs|
    ensures Shared(bs[k..]) == [Full(bs[k].data)] + Shared(bs[k + 1..])
    ensures Concat(bs[k..]) == bs[k].data + Concat(bs[k + 1..])
    ensures bs[..k + 1][..k] == bs[..k] && bs[..k + 1][k] == bs[k]
  {
    assert bs[k..][0] == bs[k] && bs[k..][1..] == bs[k + 1..];
  }

  /** Byte `i` of a fragment list, found by walking the fragments the way the
    * byte iterator of `operator==` does. */
  function ByteAt(fs: seq<Fragment>, i: nat): (b: byte)
    requires i < |Concat(fs)|
    ensures b == Concat(fs)[i]
  {
    if i < |fs[0].data| then fs[0].data[i] else ByteAt(fs[1..], i - |fs[0].data|)
  }

  /** The fragment list `trim_front(n)` leaves behind, as written: leading
    * fragments no larger than `n` are popped without reducing `n`, and the
    * first fragment larger than `n` loses `n` bytes. */
  function TrimFrontSpec(fs: seq<Fragment>, n: nat): (r: seq<Fragment>)
    requires AllValid(fs)
    ensures AllValid(r)
  {
    if fs == [] then []
    else if |fs[0].data| > n then [fs[0].TrimFront(n)] + fs[1..]
    else TrimFrontSpec(fs[1..], n)
  }

  /** What trim_front(n) keeps is a suffix of the old bytes, and it removes at
    * least `min(n, size)` bytes (more, whenever fragments were popped). */
  lemma {:induction false} TrimFrontRemovesAtLeast(fs: seq<Fragment>, n: nat)
    requires AllValid(fs)
    ensures |Concat(TrimFrontSpec(fs, n))| <= |Concat(fs)|
    ensures Concat(TrimFrontSpec(fs, n)) == Concat(fs)[|Concat(fs)| - |Concat(TrimFrontSpec(fs, n))|..]
    ensures |Concat(fs)| - |Concat(TrimFrontSpec(fs, n))| >= Min(n, |Concat(fs)|)
  {
    if fs != [] {
      var whole := Concat(fs);
      assert whole == fs[0].data + Concat(fs[1..]);
      if |fs[0].data| > n {
        var r := [fs[0].TrimFront(n)] + fs[1..];
        assert r[0] == fs[0].TrimFront(n) && r[1..] == fs[1..];
        assert Concat(r) == fs[0].data[n..] + Concat(fs[1..]);
        assert whole[n..] == Concat(r);
      } else {
        var rest := Concat(fs[1..]);
        var kept := Concat(TrimFrontSpec(fs[1..], n));
        TrimFrontRemovesAtLeast(fs[1..], n);
        assert kept == rest[|rest| - |kept|..];
        assert whole[|whole| - |rest|..] == rest;
        assert whole[|whole| - |kept|..] == kept;
      }
    }
  }

  /** With fragments [1,2] and [3,4,5], trim_front(2) pops the first fragment
    * and then trims two more bytes, so four bytes go instead of two. */
  lemma TrimFrontOverTrims()
    ensures Concat(TrimFrontSpec([Full([1, 2]), Full([3, 4, 5])], 2)) == [5]
  {
    var fs := [Full([1, 2]), Full([3, 4, 5])];
    assert fs[1..] == [Full([3, 4, 5])];
    assert TrimFrontSpec(fs, 2) == TrimFrontSpec([Full([3, 4, 5])], 2);
    assert TrimFrontSpec([Full([3, 4, 5])], 2) == [Fragment([5], 1)];
  }

  /** The position, in the whole buffer, that a placeholder addresses. */
  datatype Placeholder = Placeholder(fragment: nat, offset: nat, len: nat)

  class Iobuf {
    var frags: seq<Fragment>
    var size: nat

    ghost predicate Valid()
      reads this
    {
      AllValid(frags) && size == |Concat(frags)|
    }

    /** The bytes held, front to back, independent of the fragment layout. */
    function Contents(): seq<byte>
      reads this
    {
      Concat(frags)
    }

    constructor()
      ensures Valid() && frags == [] && size == 0
    {
      frags := [];
      size := 0;
    }

    /** The move constructor: takes over `x`'s fragments and clears `x`. */
    constructor Move(x: Iobuf)
      requires x.Valid()
      modifies x
      ensures Valid() && frags == old(x.frags) && size == old(x.size)
      ensures x.Valid() && x.frags == [] && x.size == 0
    {
      frags := x.frags;
      size := x.size;
      new;
      x.Clear();
    }

    /** Disposes of every fragment from the back; also what the destructor does. */
    method Clear()
      requires Valid()
      modifies this
      ensures Valid() && frags == [] && size == 0
    {
      while frags != []
        decreases |frags|
      {
        frags := frags[..|frags| - 1];
      }
      size := 0;
    }

    function SizeBytes(): (r: nat)
      reads this
      requires Valid()
      ensures r == |Contents()|
    {
      size
    }

    /** True when there are no fragments: an iobuf holding only empty
      * fragments is not empty although its size is 0. */
    function Empty(): (r: bool)
      reads this
      requires Valid()
      ensures r ==> SizeBytes() == 0 && Contents() == []
    {
      frags == []
    }

    /** Spare room of the last fragment, 0 without fragments. */
    function AvailableBytes(): nat
      reads this
      requires Valid()
    {
      if frags == [] then 0 else frags[|frags| - 1].Available()
    }

    /** Byte-wise content comparison, independent of the fragment layout. */
    method Equals(o: Iobuf) returns (r: bool)
      requires Valid() && o.Valid()
      ensures r <==> Contents() == o.Contents()
    {
      if size != o.size {
        return false;
      }
      var i := 0;
      while i < size
        invariant 0 <= i <= size
        invariant Contents()[..i] == o.Contents()[..i]
      {
        var l := ByteAt(frags, i);
        var rb := ByteAt(o.frags, i);
        if l != rb {
          return false;
        }
        assert Contents()[..i + 1] == Contents()[..i] + [l];
        assert o.Contents()[..i + 1] == o.Contents()[..i] + [rb];
        i := i + 1;
      }
      assert Contents() == Contents()[..i] && o.Contents() == o.Contents()[..i];
      return true;
    }

    method NotEquals(o: Iobuf) returns (r: bool)
      requires Valid() && o.Valid()
      ensures r <==> Contents() != o.Contents()
    {
      var eq := Equals(o);
      r := !eq;
    }

    method CreateNewFragment(sz: nat)
      requires Valid()
      modifies this
      ensures Valid() && size == old(size)
      ensures frags == old(frags) + [Fragment([], NextAllocationSize(sz))]
      ensures Contents() == old(Contents())
    {
      ConcatSnoc(frags, Fragment([], NextAllocationSize(sz)));
      frags := frags + [Fragment([], NextAllocationSize(sz))];
    }

    /** Replaces the last fragment by `f`, keeping the count in step. */
    method ReplaceLast(f: Fragment)
      requires Valid() && frags != [] && f.Valid()
      modifies this
      ensures Valid()
      ensures frags == old(frags[..|frags| - 1]) + [f]
      ensures Contents() == Concat(old(frags[..|frags| - 1])) + f.data
    {
      ConcatLast(frags);
      ConcatSnoc(frags[..|frags| - 1], f);
      size := size - |frags[|frags| - 1].data| + |f.data|;
      frags := frags[..|frags| - 1] + [f];
    }

    /** Makes sure the last fragment has `reservation` spare bytes; a partly
      * used last fragment is trimmed before a new one is added. */
    method ReserveMemory(reservation: nat)
      requires Valid()
      modifies this
      ensures Valid() && size == old(size) && Contents() == old(Contents())
      ensures old(AvailableBytes()) >= reservation ==> frags == old(frags)
      ensures reservation <= MaxChunkSize ==> AvailableBytes() >= reservation
    {
      var b := AvailableBytes();
      if b < reservation {
        if b > 0 {
          ConcatLast(frags);
          ReplaceLast(frags[|frags| - 1].Trim());
        }
        CreateNewFragment(reservation);
      }
    }

    /** Reserves `sz` bytes at the end for later in-place writing; the
      * placeholder addresses exactly those bytes. */
    method Reserve(sz: nat) returns (p: Placeholder)
      requires Valid() && sz <= MaxChunkSize
      modifies this
      ensures Valid() && size == old(size) + sz
      ensures Contents() == old(Contents()) + Zeros(sz)
      ensures p.len == sz && p.fragment == |frags| - 1
      ensures |Concat(frags[..p.fragment])| + p.offset == old(size)
    {
      ReserveMemory(sz);
      if sz == 0 && frags == [] {
        CreateNewFragment(0);
      }
      var last := frags[|frags| - 1];
      ConcatLast(frags);
      p := Placeholder(|frags| - 1, |last.data|, sz);
      ReplaceLast(last.Reserve(sz));
    }

    /** Puts `b` in front as one full fragment, even when `b` is empty. */
    method PrependBuf(b: seq<byte>)
      requires Valid()
      modifies this
      ensures Valid() && size == old(size) + |b|
      ensures frags == [Full(b)] + old(frags)
      ensures Contents() == b + old(Contents())
    {
      size := size + |b|;
      ConcatAppend([Full(b)], frags);
      assert Concat([Full(b)]) == b;
      frags := [Full(b)] + frags;
    }

    /** Moves `b`'s fragments in front, last fragment first, so that `b`'s
      * bytes keep their order; `b` is consumed. */
    method PrependIobuf(b: Iobuf)
      requires Valid() && b.Valid() && b != this
      modifies this, b
      ensures Valid() && size == old(size) + old(b.size)
      ensures frags == Shared(old(b.frags)) + old(frags)
      ensures Contents() == old(b.Contents()) + old(Contents())
      ensures b.Valid() && b.frags == [] && b.size == 0
    {
      ghost var bs := b.frags;
      ghost var mine := frags;
      ghost var m: nat := |bs|;
      while b.frags != []
        invariant Moving(b, bs, mine, m, old(size))
        decreases |b.frags|
      {
        MoveBack(b, bs, mine, m, old(size));
        m := m - 1;
      }
      SharedConcat(bs);
      ConcatAppend(Shared(bs), mine);
      b.size := 0;
    }

    /** Part way through prepend(iobuf): `b` still holds its first `m`
      * fragments, and the others, shared, stand in front of `mine`. */
    ghost predicate Moving(b: Iobuf, bs: seq<Fragment>, mine: seq<Fragment>, m: nat, size0: nat)
      reads this, b
    {
      && Valid() && b != this && m == |b.frags| <= |bs| && b.frags == bs[..m]
      && frags == Shared(bs[m..]) + mine
      && size == size0 + |Concat(bs[m..])|
    }

    /** Copies `src` to the end, filling the last fragment's spare room and
      * then new fragments; an empty `src` changes nothing. */
    method AppendBytes(src: seq<byte>)
      requires Valid()
      modifies this
      ensures Valid() && size == old(size) + |src|
      ensures Contents() == old(Contents()) + src
      ensures |src| == 0 ==> frags == old(frags)
    {
      if |src| == 0 {
        return;
      }
      if |src| <= AvailableBytes() {
        var (f, n) := frags[|frags| - 1].Append(src);
        ConcatLast(frags);
        ReplaceLast(f);
        return;
      }
      var i := 0;
      while i < |src|
        invariant 0 <= i <= |src|
        invariant Valid() && size == old(size) + i
        invariant Contents() == old(Contents()) + src[..i]
        decreases |src| - i
      {
        var n := AppendChunk(src[i..]);
        assert src[..i] + src[i..][..n] == src[..i + n];
        i := i + n;
      }
      assert src[..i] == src;
    }

    /** One round of the append loop: a new fragment when the last one is
      * full, then as many bytes as fit into it. */
    method AppendChunk(src: seq<byte>) returns (n: nat)
      requires Valid() && src != []
      modifies this
      ensures Valid() && 1 <= n <= |src| && size == old(size) + n
      ensures Contents() == old(Contents()) + src[..n]
    {
      if AvailableBytes() == 0 {
        CreateNewFragment(|src|);
      }
      var (f, k) := frags[|frags| - 1].Append(src);
      ConcatLast(frags);
      ReplaceLast(f);
      n := k;
    }

    /** One step of PrependIobuf: `b`'s last fragment is shared onto the front. */
    method MoveBack(b: Iobuf, ghost bs: seq<Fragment>, ghost mine: seq<Fragment>, ghost m: nat, ghost size0: nat)
      requires Moving(b, bs, mine, m, size0) && m > 0
      modifies this, b
      ensures Moving(b, bs, mine, m - 1, size0)
    {
      SuffixStep(bs, m - 1);
      var k := |b.frags| - 1;
      var f := b.frags[k];
      assert f == bs[m - 1];
      b.frags := b.frags[..k];
      ghost var before := frags;
      PrependBuf(f.data);
      assert frags == [Full(f.data)] + before;
      assert [Full(f.data)] + (Shared(bs[m..]) + mine) == Shared(bs[m - 1..]) + mine;
    }

    /** Appends a buffer: copied into spare room when it fits, otherwise the
      * last fragment is dropped (if unused) or trimmed, and the buffer becomes
      * a full fragment of its own. */
    method AppendBuf(b: seq<byte>)
      requires Valid()
      modifies this
      ensures Valid() && size == old(size) + |b|
      ensures Contents() == old(Contents()) + b
    {
      if |b| <= AvailableBytes() {
        AppendBytes(b);
        return;
      }
      if AvailableBytes() > 0 {
        var last := frags[|frags| - 1];
        ConcatLast(frags);
        if last.IsEmpty() {
          size := size - |last.data|;
          frags := frags[..|frags| - 1];
        } else {
          ReplaceLast(last.Trim());
        }
      }
      size := size + |b|;
      ConcatSnoc(frags, Full(b));
      frags := frags + [Full(b)];
    }

    /** Appends another iobuf's bytes after trimming the last fragment; `o`
      * is consumed front to back. */
    method AppendIobuf(o: Iobuf)
      requires Valid() && o.Valid() && o != this
      modifies this, o
      ensures Valid() && size == old(size) + old(o.size)
      ensures Contents() == old(Contents()) + old(o.Contents())
      ensures o.Valid() && o.frags == [] && o.size == 0
    {
      if AvailableBytes() > 0 {
        ConcatLast(frags);
        ReplaceLast(frags[|frags| - 1].Trim());
      }
      ghost var total := old(o.Contents());
      while o.frags != []
        invariant Valid() && AllValid(o.frags)
        invariant Contents() + Concat(o.frags) == old(Contents()) + total
        decreases |o.frags|
      {
        MoveFront(o);
      }
      o.size := 0;
    }

    /** One step of AppendIobuf: `o`'s first fragment is shared onto the end. */
    method MoveFront(o: Iobuf)
      requires Valid() && AllValid(o.frags) && o.frags != [] && o != this
      modifies this, o
      ensures Valid() && AllValid(o.frags) && o.frags == old(o.frags[1..])
      ensures Contents() + Concat(o.frags) == old(Contents()) + old(Concat(o.frags))
    {
      var f := o.frags[0];
      o.frags := o.frags[1..];
      AppendBuf(f.data);
    }

    /** Drops the first fragment and its bytes from the count. */
    method PopFront()
      requires Valid() && frags != []
      modifies this
      ensures Valid() && frags == old(frags[1..])
      ensures size == old(size) - old(|frags[0].data|)
      ensures Contents() == old(Contents())[old(|frags[0].data|)..]
    {
      size := size - |frags[0].data|;
      frags := frags[1..];
    }

    /** trim_front(n) as written: `n` is not reduced by popped fragments. */
    method TrimFront(n: nat)
      requires Valid()
      modifies this
      ensures Valid() && frags == TrimFrontSpec(old(frags), n)
    {
      while frags != []
        invariant Valid() && TrimFrontSpec(frags, n) == TrimFrontSpec(old(frags), n)
        decreases |frags|
      {
        var f := frags[0];
        if |f.data| > n {
          assert frags == [f] + frags[1..];
          ConcatAppend([f.TrimFront(n)], frags[1..]);
          ConcatAppend([f], frags[1..]);
          assert Concat([f.TrimFront(n)]) == f.data[n..];
          assert Concat([f]) == f.data;
          size := size - n;
          frags := [f.TrimFront(n)] + frags[1..];
          return;
        }
        PopFront();
      }
    }

    /** trim_front with `n` reduced by each popped fragment: exactly
      * min(n, size) leading bytes go. */
    method TrimFrontExact(n: nat)
      requires Valid()
      modifies this
      ensures Valid()
      ensures Contents() == old(Contents())[Min(n, old(size))..]
    {
      var left: nat := n;
      while frags != []
        invariant Valid() && left <= n
        invariant |old(Contents())| == old(size)
        invariant n - left <= old(size) && Contents() == old(Contents())[n - left..]
        decreases |frags|
      {
        var f := frags[0];
        if |f.data| > left {
          assert frags == [f] + frags[1..];
          ConcatAppend([f.TrimFront(left)], frags[1..]);
          ConcatAppend([f], frags[1..]);
          assert Concat([f.TrimFront(left)]) == f.data[left..];
          assert Concat([f]) == f.data;
          size := size - left;
          frags := [f.TrimFront(left)] + frags[1..];
          return;
        }
        ConcatAppend([f], frags[1..]);
        assert frags == [f] + frags[1..];
        assert Concat([f]) == f.data;
        left := left - |f.data|;
        PopFront();
      }
    }
  }

  /** The empty-but-not-size-zero case: one empty fragment. */
  lemma EmptyIsNotSizeZero()
    ensures exists fs: seq<Fragment> :: AllValid(fs) && |Concat(fs)| == 0 && fs != []
  {
    var fs := [Full([])];
    assert Concat(fs) == [];
  }
}
