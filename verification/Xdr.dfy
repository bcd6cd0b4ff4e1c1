/** XDR items (RFC 4506) and layouts, which are sequences of items. */
module Xdr {
  import opened Common
  import opened Bytes

  datatype XdrError = Truncated | TooLong | BadBool

  datatype Got<T> = Good(value: T, pos: nat) | Bad(error: XdrError)

  /** What an item holds. The narrow ones ride as a full word and are cut down by the decoder. */
  datatype Kind = U32 | I32 | U16 | U8 | Bool | Opaque(max: u32)

  datatype Value = Num(n: int) | Flag(on: bool) | Octets(bytes: seq<byte>)

  /** The values the encoder is given. A longer opaque would not have its length on the wire. */
  predicate Fits(k: Kind, v: Value) {
    match k
    case U32 => v.Num? && 0 <= v.n < 0x1_0000_0000
    case I32 => v.Num? && -0x8000_0000 <= v.n < 0x8000_0000
    case U16 => v.Num? && 0 <= v.n < 0x1_0000
    case U8 => v.Num? && 0 <= v.n < 0x100
    case Bool => v.Flag?
    case Opaque(_) => v.Octets? && |v.bytes| < 0x1_0000_0000
  }

  /** The values the decoder accepts. */
  predicate InBounds(k: Kind, v: Value) { Fits(k, v) && (k.Opaque? ==> |v.bytes| <= k.max) }

  function PadOf(len: nat): nat { (4 - len % 4) % 4 }

  function Put(k: Kind, v: Value): seq<byte>
    requires Fits(k, v)
  {
    match k
    case Bool => ToBytes(if v.on then 1 else 0, 4)
    case Opaque(_) => ToBytes(|v.bytes|, 4) + v.bytes + seq(PadOf(|v.bytes|), i => 0)
    case _ => ToBytes(v.n % 0x1_0000_0000, 4)
  }

  function Take(data: seq<byte>, pos: nat, n: nat): Got<seq<byte>> {
    if pos + n > |data| then Bad(Truncated) else Good(data[pos..pos + n], pos + n)
  }

  function Word(data: seq<byte>, pos: nat): (r: Got<u32>)
    ensures r.Good? ==> r.pos == pos + 4 <= |data|
  {
    match Take(data, pos, 4)
    case Bad(e) => Bad(e)
    case Good(b, p) =>
      FromBytesFits(b);
      Radixes();
      Good(FromBytes(b), p)
  }

  function FromWord(k: Kind, w: u32): Got<Value>
    requires !k.Opaque?
  {
    match k
    case U32 => Good(Num(w), 0)
    case I32 => Good(Num(if w < 0x8000_0000 then w else w - 0x1_0000_0000), 0)
    case U16 => Good(Num(w % 0x1_0000), 0)
    case U8 => Good(Num(w % 0x100), 0)
    case Bool => if w > 1 then Bad(BadBool) else Good(Flag(w == 1), 0)
  }

  /** One item at `pos`. Padding is skipped, whatever is in it. */
  function Get(k: Kind, data: seq<byte>, pos: nat): (r: Got<Value>)
    ensures r.Good? ==> InBounds(k, r.value) && pos + 4 <= r.pos <= |data|
  {
    match Word(data, pos)
    case Bad(e) => Bad(e)
    case Good(w, p) =>
      if !k.Opaque? then
        match FromWord(k, w)
        case Bad(e) => Bad(e)
        case Good(v, _) => Good(v, p)
      else if w > k.max then Bad(TooLong)
      else
        match Take(data, p, w)
        case Bad(e) => Bad(e)
        case Good(b, q) =>
          match Take(data, q, PadOf(w))
          case Bad(e) => Bad(e)
          case Good(_, end) => Good(Octets(b), end)
  }

  lemma WordRoundTrip(n: u32, data: seq<byte>, pos: nat)
    requires HasAt(data, pos, ToBytes(n, 4))
    ensures Word(data, pos) == Good(n, pos + 4)
  {
    Radixes();
    NumberRoundTrip(n, 4);
  }

  /** Every item that is within its bound reads back, from wherever it stands; an opaque beyond it is refused. */
  lemma ItemRoundTrip(k: Kind, v: Value, data: seq<byte>, pos: nat)
    requires Fits(k, v) && HasAt(data, pos, Put(k, v))
    ensures InBounds(k, v) ==> Get(k, data, pos) == Good(v, pos + |Put(k, v)|)
    ensures !InBounds(k, v) ==> Get(k, data, pos) == Bad(TooLong)
  {
    if k.Opaque? {
      OpaqueRoundTrip(k, v, data, pos);
    } else {
      WordRoundTrip(if v.Flag? then if v.on then 1 else 0 else v.n % 0x1_0000_0000, data, pos);
    }
  }

  lemma OpaqueRoundTrip(k: Kind, v: Value, data: seq<byte>, pos: nat)
    requires k.Opaque? && Fits(k, v) && HasAt(data, pos, Put(k, v))
    ensures Get(k, data, pos) == if |v.bytes| <= k.max then Good(v, pos + |Put(k, v)|) else Bad(TooLong)
  {
    var item, n := Put(k, v), |v.bytes|;
    HasPartAt(data, pos, item, 0, 4);
    assert item[0..4] == ToBytes(n, 4);
    WordRoundTrip(n, data, pos);
    HasPartAt(data, pos, item, 4, 4 + n);
    assert item[4..4 + n] == v.bytes;
  }

  // ---- Layouts ----

  /** The first `n` of some encoded items, one after the other. */
  function Concat(items: seq<seq<byte>>, n: nat): seq<byte>
    requires n <= |items|
  {
    if n == 0 then [] else Concat(items, n - 1) + items[n - 1]
  }

  /** Decode `n` items one after the other, item `i` by `get(i, _)`. */
  function Chain<T>(get: (nat, nat) -> Got<T>, at: nat, n: nat): (r: Got<seq<T>>)
    ensures r.Good? ==> |r.value| == n
  {
    if n == 0 then Good([], at) else
    match Chain(get, at, n - 1)
    case Bad(e) => Bad(e)
    case Good(vs, pos) =>
      match get(n - 1, pos)
      case Bad(e) => Bad(e)
      case Good(v, end) => Good(vs + [v], end)
  }

  lemma LastHolds(items: seq<seq<byte>>, data: seq<byte>, at: nat, n: nat)
    requires 0 < n <= |items| && HasAt(data, at, Concat(items, n))
    ensures HasAt(data, at, Concat(items, n - 1)) && HasAt(data, at + |Concat(items, n - 1)|, items[n - 1])
  {
    var all, before := Concat(items, n), Concat(items, n - 1);
    HasPartAt(data, at, all, 0, |before|);
    HasPartAt(data, at, all, |before|, |all|);
    assert all[0..|before|] == before && all[|before|..|all|] == items[n - 1];
  }

  /** A chain of decoders that each read back their own item reads back all of them; */
  lemma {:induction false} ChainRoundTrip<T>(get: (nat, nat) -> Got<T>, items: seq<seq<byte>>, vs: seq<T>, data: seq<byte>, at: nat, n: nat)
    requires n <= |items| == |vs| && HasAt(data, at, Concat(items, n))
    requires forall i: nat, pos: nat :: i < n && HasAt(data, pos, items[i]) ==> get(i, pos) == Good(vs[i], pos + |items[i]|)
    ensures Chain(get, at, n) == Good(vs[..n], at + |Concat(items, n)|)
  {
    if n > 0 {
      LastHolds(items, data, at, n);
      ChainRoundTrip(get, items, vs, data, at, n - 1);
      assert vs[..n] == vs[..n - 1] + [vs[n - 1]];
    }
  }

  /** one that refuses its item refuses the whole. */
  lemma {:induction false} ChainRefused<T>(get: (nat, nat) -> Got<T>, items: seq<seq<byte>>, vs: seq<T>, data: seq<byte>, at: nat, j: nat, n: nat, e: XdrError)
    requires j < n <= |items| == |vs| && HasAt(data, at, Concat(items, n))
    requires forall i: nat, pos: nat :: i < j && HasAt(data, pos, items[i]) ==> get(i, pos) == Good(vs[i], pos + |items[i]|)
    requires forall pos: nat :: HasAt(data, pos, items[j]) ==> get(j, pos) == Bad(e)
    ensures Chain(get, at, n) == Bad(e)
  {
    LastHolds(items, data, at, n);
    if j == n - 1 {
      ChainRoundTrip(get, items, vs, data, at, n - 1);
    } else {
      ChainRefused(get, items, vs, data, at, j, n - 1, e);
    }
  }

  predicate AllFit(ks: seq<Kind>, vs: seq<Value>) {
    |ks| == |vs| && forall i :: 0 <= i < |ks| ==> Fits(ks[i], vs[i])
  }

  predicate AllInBounds(ks: seq<Kind>, vs: seq<Value>) {
    |ks| == |vs| && forall i :: 0 <= i < |ks| ==> InBounds(ks[i], vs[i])
  }

  function Items(ks: seq<Kind>, vs: seq<Value>): (items: seq<seq<byte>>)
    requires AllFit(ks, vs)
    ensures |items| == |ks| && forall i :: 0 <= i < |ks| ==> items[i] == Put(ks[i], vs[i])
  {
    seq(|ks|, i requires 0 <= i < |ks| => Put(ks[i], vs[i]))
  }

  /** A structure on the wire: its items in the order of the layout. */
  function PutAll(ks: seq<Kind>, vs: seq<Value>): seq<byte>
    requires AllFit(ks, vs)
  {
    Concat(Items(ks, vs), |ks|)
  }

  function Getter(ks: seq<Kind>, data: seq<byte>): (nat, nat) -> Got<Value> {
    (i: nat, pos: nat) => if i < |ks| then Get(ks[i], data, pos) else Bad(Truncated)
  }

  /** The first `n` items of a layout. */
  function GetAll(ks: seq<Kind>, data: seq<byte>, at: nat, n: nat): (r: Got<seq<Value>>)
    ensures r.Good? ==> |r.value| == n
  {
    Chain(Getter(ks, data), at, n)
  }

  lemma {:induction false} GotInBounds(ks: seq<Kind>, data: seq<byte>, at: nat, n: nat)
    requires n <= |ks| && GetAll(ks, data, at, n).Good?
    ensures AllInBounds(ks[..n], GetAll(ks, data, at, n).value)
    ensures n > 0 ==> GetAll(ks, data, at, n).pos <= |data|
  {
    if n > 0 {
      GotInBounds(ks, data, at, n - 1);
      assert forall i :: 0 <= i < n - 1 ==> ks[..n][i] == ks[..n - 1][i];
    }
  }

  /** Any layout decodes to what was encoded, if every opaque in it is within its bound, */
  lemma LayoutRoundTrip(ks: seq<Kind>, vs: seq<Value>, data: seq<byte>, at: nat)
    requires AllFit(ks, vs) && AllInBounds(ks, vs) && HasAt(data, at, PutAll(ks, vs))
    ensures GetAll(ks, data, at, |ks|) == Good(vs, at + |PutAll(ks, vs)|)
  {
    var items, get := Items(ks, vs), Getter(ks, data);
    forall i: nat, pos: nat | i < |ks| && HasAt(data, pos, items[i]) ensures get(i, pos) == Good(vs[i], pos + |items[i]|) {
      ItemRoundTrip(ks[i], vs[i], data, pos);
    }
    ChainRoundTrip(get, items, vs, data, at, |ks|);
    assert vs[..|ks|] == vs;
  }

  /** and is refused as too long if one is not. */
  lemma LayoutRefused(ks: seq<Kind>, vs: seq<Value>, data: seq<byte>, at: nat)
    requires AllFit(ks, vs) && !AllInBounds(ks, vs) && HasAt(data, at, PutAll(ks, vs))
    ensures GetAll(ks, data, at, |ks|) == Bad(TooLong)
  {
    var items, get := Items(ks, vs), Getter(ks, data);
    var j := FirstOutOfBounds(ks, vs);
    forall i: nat, pos: nat | i <= j && HasAt(data, pos, items[i])
      ensures get(i, pos) == if i < j then Good(vs[i], pos + |items[i]|) else Bad(TooLong)
    {
      ItemRoundTrip(ks[i], vs[i], data, pos);
    }
    ChainRefused(get, items, vs, data, at, j, |ks|, TooLong);
  }

  lemma FirstOutOfBounds(ks: seq<Kind>, vs: seq<Value>) returns (j: nat)
    requires |ks| == |vs| && !AllInBounds(ks, vs)
    ensures j < |ks| && !InBounds(ks[j], vs[j]) && forall i :: 0 <= i < j ==> InBounds(ks[i], vs[i])
  {
    j := 0;
    while InBounds(ks[j], vs[j])
      invariant j < |ks| && forall i :: 0 <= i < j ==> InBounds(ks[i], vs[i])
      decreases |ks| - j
    {
      j := j + 1;
    }
  }

  /** The strict reader over one buffer. */
  class Cursor {
    const data: seq<byte>
    var pos: nat

    ghost predicate Valid()
      reads this
    {
      pos <= |data|
    }

    constructor (bytes: seq<byte>)
      ensures Valid() && data == bytes && pos == 0
    {
      data, pos := bytes, 0;
    }

    /** On success the cursor is past the item; on failure it may have moved. */
    method Next(k: Kind) returns (r: Got<Value>)
      requires Valid()
      modifies this
      ensures Valid() && r == Get(k, data, old(pos)) && (r.Good? ==> pos == r.pos)
    {
      var w := Word(data, pos);
      if w.Bad? {
        return Bad(w.error);
      }
      pos := w.pos;
      if !k.Opaque? {
        var v := FromWord(k, w.value);
        return if v.Good? then Good(v.value, pos) else Bad(v.error);
      }
      if w.value > k.max {
        return Bad(TooLong);
      }
      var b := Take(data, pos, w.value);
      if b.Bad? {
        return Bad(b.error);
      }
      pos := b.pos;
      var pad := Take(data, pos, PadOf(w.value));
      if pad.Bad? {
        return Bad(pad.error);
      }
      pos := pad.pos;
      return Good(Octets(b.value), pos);
    }
  }
}
