/** Bytes, C strings and the outcome of an operation that C++ may leave undefined. */
module Bytes {

  type Byte = b: int | 0 <= b < 256

  type Text = seq<Byte>

  /** `Undefined` stands for a signed overflow or an out-of-range conversion: from there on C++ promises nothing. */
  datatype Outcome<+T> = Defined(value: T) | Undefined

  datatype Option<+T> = None | Some(value: T)

  /** The part of a buffer that a C string constructor sees: everything before the first NUL. */
  function CString(s: Text): (r: Text)
    ensures r <= s
    ensures 0 !in r
    ensures |r| < |s| ==> s[|r|] == 0
  {
    if s == [] || s[0] == 0 then [] else [s[0]] + CString(s[1..])
  }

  const ZERO: Byte := '0' as int

  predicate IsDigit(c: int) {
    ZERO <= c <= '9' as int
  }

  ghost predicate AllDigits(t: Text) {
    forall i | 0 <= i < |t| :: IsDigit(t[i])
  }
}

/** The byte source behind `Stream`: the bytes still to come, whose end is the timeout. */
module ByteStreams {
  import opened Bytes

  class ByteStream {
    var rest: Text

    constructor (bytes: Text)
      ensures rest == bytes
    {
      rest := bytes;
    }

    /** `read()` and `timedRead()`: the next byte, consumed, or -1 once the bytes run out. */
    method Read() returns (c: int)
      modifies this
      ensures old(rest) == [] ==> c == -1 && rest == []
      ensures old(rest) != [] ==> c == old(rest)[0] && rest == old(rest)[1..]
    {
      if rest == [] {
        return -1;
      }
      c := rest[0];
      rest := rest[1..];
    }

    /** `peek()` and `timedPeek()`: the next byte, left in place, or -1. */
    function Peek(): (c: int)
      reads this
      ensures c == -1 <==> rest == []
      ensures rest != [] ==> c == rest[0]
    {
      if rest == [] then -1 else rest[0]
    }

    predicate Available()
      reads this
    {
      rest != []
    }
  }
}
