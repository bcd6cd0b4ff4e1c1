/** Shared value types. */
module Common {
  datatype Option<+T> = None | Some(value: T)

  type byte = x: int | 0 <= x < 0x100
  type u16 = x: int | 0 <= x < 0x1_0000
  type u32 = x: int | 0 <= x < 0x1_0000_0000
  type i32 = x: int | -0x8000_0000 <= x < 0x8000_0000

  function Min(a: int, b: int): int { if a <= b then a else b }
  function Max(a: int, b: int): int { if a <= b then b else a }

  lemma PrefixExtends<T>(s: seq<T>, a: nat, b: nat)
    requires a <= b <= |s|
    ensures s[..a] + s[a..b] == s[..b]
  {
  }

  lemma Assoc<T>(a: seq<T>, b: seq<T>, c: seq<T>)
    ensures a + (b + c) == a + b + c
  {
  }

  /** `item` is what stands in `data` at `pos`. */
  predicate HasAt<T(==)>(data: seq<T>, pos: nat, item: seq<T>) {
    pos + |item| <= |data| && data[pos..pos + |item|] == item
  }

  lemma HasPartAt<T>(data: seq<T>, pos: nat, item: seq<T>, i: nat, j: nat)
    requires HasAt(data, pos, item) && i <= j <= |item|
    ensures HasAt(data, pos + i, item[i..j])
  {
    forall k | 0 <= k < j - i ensures data[pos + i..pos + j][k] == item[i..j][k] {
      assert data[pos..pos + |item|][i + k] == item[i + k];
    }
  }

  /** In-order concatenation. */
  function Flatten<T>(parts: seq<seq<T>>): seq<T> {
    if parts == [] then [] else Flatten(parts[..|parts| - 1]) + parts[|parts| - 1]
  }
}
