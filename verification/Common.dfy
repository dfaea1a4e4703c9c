/** Types shared by the models of the device, the SDK and the server. */
module Common {

  datatype Option<+T> = None | Some(value: T)

  datatype Result<+T, +E> = Success(value: T) | Failure(error: E)

  function Min(a: nat, b: nat): nat { if a < b then a else b }

  type Byte = x: int | 0 <= x < 256

  type Bytes = seq<Byte>

  /** Release ids are UUID strings on the server; the device treats them as opaque names. */
  type Id = string

  /** The characters of s up to the first c, and those after it; None when c does not occur. */
  function Break(s: string, c: char): Option<(string, string)> {
    if s == [] then None
    else if s[0] == c then Some(([], s[1..]))
    else
      match Break(s[1..], c)
      case None => None
      case Some(pair) => Some(([s[0]] + pair.0, pair.1))
  }

  lemma {:induction false} BreakFinds(a: string, c: char, b: string)
    requires c !in a
    ensures Break(a + [c] + b, c) == Some((a, b))
  {
    var s := a + [c] + b;
    if a == [] {
      assert s[0] == c && s[1..] == b;
    } else {
      BreakFinds(a[1..], c, b);
      assert s[0] == a[0] && s[1..] == a[1..] + [c] + b;
      assert [a[0]] + a[1..] == a;
    }
  }

  lemma {:induction false} BreakSound(s: string, c: char)
    ensures Break(s, c).None? ==> c !in s
    ensures Break(s, c).Some? ==>
              && c !in Break(s, c).value.0
              && s == Break(s, c).value.0 + [c] + Break(s, c).value.1
  {
    if s != [] && s[0] != c {
      BreakSound(s[1..], c);
    }
  }
}
