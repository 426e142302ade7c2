/**
 * The C library string routines the component's version query relies on:
 * `strlen`, and the bounds-checked `strnlen_s` and `strncpy_s` of
 * ISO/IEC 9899:2011 Annex K (sections K.3.7.4.4 and K.3.7.1.4).
 *
 * A C `char` is one byte, so text is a sequence of bytes: a string literal
 * is given as its bytes in the execution character set. A C string is read
 * up to its first NUL. A sequence that holds no NUL stands for a string
 * literal whose terminator is implicit, so its C length is its whole length.
 */
module AnnexK {

  /** One C `char`. */
  newtype Byte = b: int | 0 <= b < 0x100

  const NUL: Byte := 0

  /** `strlen`: the index of the first NUL, or the whole length when there is none. */
  function CStrLen(s: seq<Byte>): (n: nat)
    ensures n <= |s|
    ensures forall i :: 0 <= i < n ==> s[i] != NUL
    ensures n < |s| ==> s[n] == NUL
  {
    if s == [] || s[0] == NUL then 0 else 1 + CStrLen(s[1..])
  }

  /** The text a C reader sees in a character buffer: everything before the first NUL. */
  function CString(s: seq<Byte>): seq<Byte>
  {
    s[..CStrLen(s)]
  }

  function Min(a: nat, b: nat): nat
  {
    if a < b then a else b
  }

  /** A buffer of `n` NUL characters, as a `{0}` initialiser leaves it. */
  function Zeros(n: nat): seq<Byte>
  {
    seq(n, _ => NUL)
  }

  /**
   * `strnlen_s(s, maxsize)`: the length of the C string, but never more than
   * `maxsize` (section K.3.7.4.4).
   */
  function StrnlenS(s: seq<Byte>, maxsize: nat): (n: nat)
    ensures n <= maxsize && n <= CStrLen(s)
    ensures n < maxsize <==> CStrLen(s) < maxsize
    ensures n < maxsize ==> n == CStrLen(s)
  {
    Min(CStrLen(s), maxsize)
  }

  /** The value `strncpy_s` returns: zero, or the error a violated runtime-constraint reports. */
  datatype Errno =
    | Success
    | InvalidSize     // destination size zero (EINVAL)
    | BufferTooSmall  // count and source text do not fit the destination (ERANGE)

  /** The destination buffer after a `strncpy_s` call, and what the call returned. */
  datatype Copy = Copy(buffer: seq<Byte>, status: Errno)

  /**
   * The runtime-constraints of `strncpy_s(s1, s1max, s2, n)` that can fail
   * for a non-null source and destination: `s1max` must not be zero, and
   * when `n` is not less than `s1max`, `s1max` must exceed `strnlen_s(s2, s1max)`.
   */
  function Constraint(destsz: nat, src: seq<Byte>, count: nat): (r: Errno)
    ensures r == InvalidSize <==> destsz == 0
    ensures r == BufferTooSmall <==> destsz > 0 && count >= destsz && CStrLen(src) >= destsz
    ensures r == Success <==> destsz > 0 && (count < destsz || CStrLen(src) < destsz)
  {
    if destsz == 0 then InvalidSize
    else if count >= destsz && destsz <= StrnlenS(src, destsz) then BufferTooSmall
    else Success
  }

  /** How many characters a successful `strncpy_s` copies before it writes the NUL. */
  function Copied(src: seq<Byte>, count: nat): nat
  {
    Min(count, CStrLen(src))
  }

  /**
   * `strncpy_s(dest, destsz, src, count)` on the contents of the destination
   * buffer. On success the first `Copied(src, count)` characters of `src`
   * are copied and followed by a NUL. On a violated constraint with a
   * non-zero size `dest[0]` is set to NUL; with size zero nothing is
   * written. Annex K leaves every element after the written NUL unspecified;
   * this model keeps those elements as they were, which is a choice of the
   * model and not what every library does.
   */
  function StrncpySpec(dest: seq<Byte>, destsz: nat, src: seq<Byte>, count: nat): (r: Copy)
    requires destsz <= |dest|
    ensures |r.buffer| == |dest|
    ensures forall i :: destsz <= i < |dest| ==> r.buffer[i] == dest[i]
    ensures r.status == Constraint(destsz, src, count)
  {
    match Constraint(destsz, src, count)
    case InvalidSize => Copy(dest, InvalidSize)
    case BufferTooSmall => Copy([NUL] + dest[1..], BufferTooSmall)
    case Success =>
      var k := Copied(src, count);
      Copy(src[..k] + [NUL] + dest[k + 1..], Success)
  }

  /** A NUL right after a NUL-free prefix ends the C string there. */
  lemma CStrLenTerminated(a: seq<Byte>, b: seq<Byte>)
    requires forall i :: 0 <= i < |a| ==> a[i] != NUL
    ensures CStrLen(a + [NUL] + b) == |a|
    ensures CString(a + [NUL] + b) == a
  {
    var s := a + [NUL] + b;
    assert s[|a|] == NUL;
    assert s[..|a|] == a;
  }

  /** A successful copy leaves exactly the copied prefix of the source as the stored C string. */
  lemma StrncpyStoresPrefix(dest: seq<Byte>, destsz: nat, src: seq<Byte>, count: nat)
    requires destsz <= |dest|
    requires Constraint(destsz, src, count) == Success
    ensures Copied(src, count) < destsz
    ensures CString(StrncpySpec(dest, destsz, src, count).buffer) == src[..Copied(src, count)]
  {
    var k := Copied(src, count);
    CStrLenTerminated(src[..k], dest[k + 1..]);
  }

  /** A violated constraint on a non-empty buffer never leaves a truncated text: the stored C string is empty. */
  lemma StrncpyViolationEmpties(dest: seq<Byte>, destsz: nat, src: seq<Byte>, count: nat)
    requires destsz <= |dest|
    requires Constraint(destsz, src, count) == BufferTooSmall
    ensures StrncpySpec(dest, destsz, src, count).buffer[0] == NUL
    ensures CString(StrncpySpec(dest, destsz, src, count).buffer) == []
  {
  }

  /** With `count` equal to the source's own length, the copy fails exactly when the text does not fit with its NUL. */
  lemma FullCopyConstraint(destsz: nat, src: seq<Byte>)
    requires destsz > 0
    ensures Constraint(destsz, src, CStrLen(src)) == Success <==> CStrLen(src) < destsz
    ensures Constraint(destsz, src, CStrLen(src)) == BufferTooSmall <==> CStrLen(src) >= destsz
    ensures Copied(src, CStrLen(src)) == CStrLen(src)
  {
  }

  /**
   * `strncpy_s` on an array: copies character by character and never
   * writes at or beyond index `destsz`.
   */
  method StrncpyS(dest: array<Byte>, destsz: nat, src: seq<Byte>, count: nat) returns (e: Errno)
    requires destsz <= dest.Length
    modifies dest
    ensures forall i :: destsz <= i < dest.Length ==> dest[i] == old(dest[i])
    ensures dest[..] == StrncpySpec(old(dest[..]), destsz, src, count).buffer
    ensures e == StrncpySpec(old(dest[..]), destsz, src, count).status
  {
    e := Constraint(destsz, src, count);
    if e == InvalidSize {
      return;
    }
    if e == BufferTooSmall {
      dest[0] := NUL;
      assert dest[..] == [NUL] + old(dest[..])[1..];
      return;
    }
    ghost var before := dest[..];
    ghost var k := Copied(src, count);
    assert k < destsz;
    var i := 0;
    while i < count && i < |src| && src[i] != NUL
      invariant 0 <= i <= k
      invariant forall j :: 0 <= j < i ==> dest[j] == src[j]
      invariant forall j :: i <= j < dest.Length ==> dest[j] == before[j]
    {
      dest[i] := src[i];
      i := i + 1;
    }
    dest[i] := NUL;
    assert dest[..] == src[..k] + [NUL] + before[k + 1..];
  }
}
