/** Byte strings, big-endian fields, and splitting and joining of byte strings. */
module Common {

  type Byte = x: int | 0 <= x < 256
  type Bytes = seq<Byte>
  type U16 = x: int | 0 <= x < 0x1_0000

  /** One more than the largest u64. */
  const U64: nat := 0x1_0000_0000_0000_0000

  datatype Option<+T> = None | Some(value: T)

  datatype Result<+T, +E> = Ok(value: T) | Err(error: E)

  function Min(a: int, b: int): int { if a <= b then a else b }

  /** No element twice. */
  ghost predicate Distinct<T>(s: seq<T>) {
    forall i, j :: 0 <= i < j < |s| ==> s[i] != s[j]
  }

  /** Big-endian two-byte field. */
  function Be16(n: U16): (r: Bytes)
    ensures |r| == 2 && FromBe16(r) == n
  {
    [n / 256, n % 256]
  }

  function FromBe16(s: Bytes): (n: U16)
    requires |s| >= 2
  {
    s[0] as int * 256 + s[1] as int
  }

  lemma Be16Injective(a: U16, b: U16)
    requires Be16(a) == Be16(b)
    ensures a == b
  {
    assert FromBe16(Be16(a)) == FromBe16(Be16(b));
  }

  /** All parts, one after the other. */
  function Join<T>(parts: seq<seq<T>>): seq<T> {
    if parts == [] then [] else parts[0] + Join(parts[1..])
  }

  lemma {:induction false} JoinAppend<T>(a: seq<seq<T>>, b: seq<seq<T>>)
    ensures Join(a + b) == Join(a) + Join(b)
  {
    if a == [] {
      assert a + b == b;
    } else {
      JoinAppend(a[1..], b);
      TailOfSum(a, b);
      Concat3(a[0], Join(a[1..]), Join(b));
    }
  }

  lemma JoinOne<T>(part: seq<T>)
    ensures Join([part]) == part
  {
    assert [part][1..] == [];
    assert Join([part]) == part + Join<T>([]);
  }

  /** The standard library's `chunks(max)`: full pieces, and a last one that may be shorter. */
  function Chunks(data: Bytes, max: nat): (r: seq<Bytes>)
    requires max > 0
    ensures Join(r) == data
    ensures forall i :: 0 <= i < |r| ==> 0 < |r[i]| <= max
    ensures forall i :: 0 <= i < |r| - 1 ==> |r[i]| == max
    decreases |data|
  {
    if data == [] then []
    else if |data| <= max then
      JoinOne(data);
      [data]
    else
      var rest := Chunks(data[max..], max);
      assert ([data[..max]] + rest)[1..] == rest;
      assert data == data[..max] + data[max..];
      [data[..max]] + rest
  }

  lemma Concat3<T>(a: seq<T>, b: seq<T>, c: seq<T>)
    ensures a + b + c == a + (b + c)
  {
  }

  lemma TailOfSum<T>(a: seq<T>, b: seq<T>)
    requires a != []
    ensures (a + b)[0] == a[0] && (a + b)[1..] == a[1..] + b
  {
  }

  lemma Concat4<T>(a: seq<T>, b: seq<T>, c: seq<T>, d: seq<T>)
    ensures a + b + c + d == a + (b + (c + d))
  {
  }
}
