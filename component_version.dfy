/**
 * The semantic-version record every component exhibits, and the lazily
 * filled, cached version query that `DBJ_COMPONENT_VERSION_IMPLEMENTATION(M, N, P, S_)`
 * expands to.
 */
module ComponentVersion {
  import opened AnnexK

  /** Size of the record's `description` buffer (0xFF bytes). */
  const DescriptionSize: nat := 0xFF

  const UnsignedModulus: int := 0x1_0000_0000

  /** A 32-bit C `unsigned`. */
  newtype Unsigned = x: int | 0 <= x < 0x1_0000_0000

  /** C's conversion of an integer constant to `unsigned`: reduction modulo 2^32. */
  function ToUnsigned(x: int): (u: Unsigned)
    ensures 0 <= x < UnsignedModulus ==> u as int == x
    ensures (u as int - x) % UnsignedModulus == 0
  {
    (x % UnsignedModulus) as Unsigned
  }

  /** `dbj_component_version`: three version numbers and a fixed description buffer. */
  datatype Version = Version(major: Unsigned, minor: Unsigned, patch: Unsigned, description: seq<Byte>)

  /** What the one `strncpy_s` call of the query leaves in a zeroed description buffer. */
  function DescriptionCopy(text: seq<Byte>): Copy
  {
    StrncpySpec(Zeros(DescriptionSize), DescriptionSize, text, CStrLen(text))
  }

  /** The record every call of the query for macro arguments `M, N, P, S_` returns. */
  function ExpectedVersion(m: int, n: int, p: int, text: seq<Byte>): Version
  {
    Version(ToUnsigned(m), ToUnsigned(n), ToUnsigned(p), DescriptionCopy(text).buffer)
  }

  /**
   * A description text of at most 254 bytes is stored exactly, followed
   * by a NUL, in a buffer that stays 0xFF bytes long; the rest of the
   * buffer keeps its zero initialisation.
   */
  lemma DescriptionFits(text: seq<Byte>)
    requires forall i :: 0 <= i < |text| ==> text[i] != NUL
    requires |text| < DescriptionSize
    ensures DescriptionCopy(text).status == Success
    ensures |DescriptionCopy(text).buffer| == DescriptionSize
    ensures DescriptionCopy(text).buffer == text + [NUL] + Zeros(DescriptionSize - |text| - 1)
    ensures CString(DescriptionCopy(text).buffer) == text
  {
    assert CStrLen(text) == |text|;
    FullCopyConstraint(DescriptionSize, text);
    StrncpyStoresPrefix(Zeros(DescriptionSize), DescriptionSize, text, |text|);
    assert text[..|text|] == text;
    assert Zeros(DescriptionSize)[|text| + 1..] == Zeros(DescriptionSize - |text| - 1);
  }

  /**
   * A description text of 255 bytes or more violates the runtime-constraint
   * of `strncpy_s`: its first byte is NUL, so the stored description reads as
   * the empty string, never as a truncated text. The bytes after that NUL are
   * unspecified; the model keeps the zero initialisation there.
   */
  lemma DescriptionTooLong(text: seq<Byte>)
    requires CStrLen(text) >= DescriptionSize
    ensures DescriptionCopy(text).status == BufferTooSmall
    ensures DescriptionCopy(text).buffer == Zeros(DescriptionSize)
    ensures CString(DescriptionCopy(text).buffer) == []
  {
    FullCopyConstraint(DescriptionSize, text);
    StrncpyViolationEmpties(Zeros(DescriptionSize), DescriptionSize, text, CStrLen(text));
  }

  /**
   * The static state of `dbj_component_get_version` in one component: the
   * `done_` flag and the `the_version_` record, built from the macro
   * arguments `M, N, P, S_`. `handlerFired` records that the runtime-constraint
   * handler of `strncpy_s` was invoked.
   */
  class VersionQuery {
    const m: int
    const n: int
    const p: int
    const text: seq<Byte>

    var done: bool
    var major: Unsigned
    var minor: Unsigned
    var patch: Unsigned
    var description: array<Byte>
    var handlerFired: bool

    /**
     * The numbers always hold the converted macro arguments; before the first
     * call the description is all zeros, after it the description is what the
     * single copy left there.
     */
    ghost predicate Valid()
      reads this, description
    {
      description.Length == DescriptionSize &&
      major == ToUnsigned(m) && minor == ToUnsigned(n) && patch == ToUnsigned(p) &&
      (!done ==> description[..] == Zeros(DescriptionSize) && !handlerFired) &&
      (done ==> description[..] == DescriptionCopy(text).buffer &&
                handlerFired == (DescriptionCopy(text).status != Success))
    }

    /** Static initialisation `{M, N, P, {0}}` with `done_ = false`. */
    constructor (M: int, N: int, P: int, S: seq<Byte>)
      ensures Valid() && fresh(description)
      ensures m == M && n == N && p == P && text == S
      ensures !done && !handlerFired
      ensures description[..] == Zeros(DescriptionSize)
    {
      m, n, p, text := M, N, P, S;
      major, minor, patch := ToUnsigned(M), ToUnsigned(N), ToUnsigned(P);
      description := new Byte[DescriptionSize](_ => NUL);
      done, handlerFired := false, false;
    }

    /**
     * `dbj_component_get_version`: on the first call copies the description
     * into the static record and sets `done_`; every call returns the record.
     */
    method GetVersion() returns (v: Version)
      requires Valid()
      modifies this, description
      ensures Valid() && done && description == old(description)
      ensures v == ExpectedVersion(m, n, p, text)
      ensures v == Version(major, minor, patch, description[..])
      ensures |v.description| == DescriptionSize
      ensures major == old(major) && minor == old(minor) && patch == old(patch)
      ensures old(done) ==> description[..] == old(description[..]) && handlerFired == old(handlerFired)
    {
      if !done {
        var e := StrncpyS(description, DescriptionSize, text, CStrLen(text));
        handlerFired := e != Success;
        done := true;
      }
      v := Version(major, minor, patch, description[..]);
    }
  }
}
