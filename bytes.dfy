/**
 * Go strings are immutable byte sequences; `[]byte(s)` and string
 * concatenation work byte by byte. The model therefore represents every
 * Go string as a sequence of bytes.
 */
module Bytes {
  import opened Wrappers

  type byte = bv8

  /** A Go `string`: its bytes, in order. */
  type GoString = seq<byte>

  /** The byte `:`. */
  const Colon: byte := 0x3A

  /**
   * The bytes of a string literal of the program. All of them are ASCII,
   * whose UTF-8 encoding is one byte per character.
   */
  function Ascii(s: string): (r: GoString)
    ensures |r| == |s|
  {
    seq(|s|, i requires 0 <= i < |s| => ((s[i] as int) % 256) as bv8)
  }

  /** Go's `fmt.Sprintf("%s:%s", a, b)`. */
  function JoinColon(a: GoString, b: GoString): (r: GoString)
    ensures |r| == |a| + 1 + |b|
    ensures r[..|a|] == a && r[|a|] == Colon && r[|a| + 1..] == b
  {
    a + [Colon] + b
  }

  /**
   * The text before and after the first `:`, or None when there is none:
   * how the `host:port` and `user-id:password` forms are read back
   * (section 2 of RFC 7617 forbids a colon in the user-id).
   */
  function SplitAtColon(s: GoString): (r: Option<(GoString, GoString)>)
    ensures r.None? <==> Colon !in s
    ensures r.Some? ==> Colon !in r.value.0 && JoinColon(r.value.0, r.value.1) == s
    decreases |s|
  {
    if s == [] then None
    else if s[0] == Colon then Some(([], s[1..]))
    else
      match SplitAtColon(s[1..])
      case None => None
      case Some((a, b)) => Some(([s[0]] + a, b))
  }

  /** Joining at a colon is undone by splitting at the first colon. */
  lemma {:induction false} SplitJoinColon(a: GoString, b: GoString)
    requires Colon !in a
    ensures SplitAtColon(JoinColon(a, b)) == Some((a, b))
    decreases |a|
  {
    if a == [] {
      assert JoinColon(a, b)[1..] == b;
    } else {
      assert JoinColon(a, b)[1..] == JoinColon(a[1..], b);
      SplitJoinColon(a[1..], b);
      assert [a[0]] + a[1..] == a;
    }
  }
}
