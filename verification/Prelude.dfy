/** Result types shared by every module. */
module Prelude {
  datatype Option<+T> = None | Some(value: T)

  /** `Err` stands for the one exception type each script raises when it refuses its input. */
  datatype Result<+T> = Ok(value: T) | Err

  /** One byte of a file. */
  type Byte = b: int | 0 <= b < 256

  type Bytes = seq<Byte>

  /** `n` lower-case hexadecimal digits. */
  predicate IsHex(s: string, n: nat) {
    |s| == n && forall i | 0 <= i < |s| :: '0' <= s[i] <= '9' || 'a' <= s[i] <= 'f'
  }

  function ZeroHex(n: nat): (s: string)
    ensures IsHex(s, n)
  {
    seq(n, _ => '0')
  }

  /** The bytes of an ASCII text. */
  function Ascii(s: string): (b: Bytes)
    requires forall i | 0 <= i < |s| :: s[i] as int < 128
    ensures |b| == |s| && forall i | 0 <= i < |s| :: b[i] == s[i] as int
  {
    seq(|s|, i requires 0 <= i < |s| => s[i] as int)
  }

  function Min(a: int, b: int): int { if a <= b then a else b }

  function Max(a: int, b: int): int { if a >= b then a else b }

  /** Moving one element from `rest` to `done` keeps their union. */
  lemma MoveOne<T>(done: set<T>, rest: set<T>, x: T)
    requires x in rest
    ensures (done + {x}) + (rest - {x}) == done + rest
  {}

  lemma OnlyMember<T>(s: set<T>, x: T)
    requires |s| == 1 && (x in s || s <= {x})
    ensures s == {x}
  {
    assert |s - {x}| == 0 || s == {};
  }
}
