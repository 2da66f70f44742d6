/** Rune-safe truncation (internal/state/payload.go, internal/inventory/manager.go). A Dafny character
    is a Unicode scalar value, which is what a Go rune of a valid UTF-8 string is. */
module Text {

  const MAX_NAME_LEN: int := 253
  const MAX_VERSION_LEN: int := 64

  /** Bytes of the character in UTF-8 (section 3 of RFC 3629). */
  function Utf8Size(c: char): nat {
    var code := c as int;
    if code < 0x80 then 1 else if code < 0x800 then 2 else if code < 0x10000 then 3 else 4
  }

  function ByteLength(s: string): nat {
    if s == [] then 0 else ByteLength(s[..|s| - 1]) + Utf8Size(s[|s| - 1])
  }

  /** The code counts bytes first, then runes, then cuts; a non-positive limit means no limit. */
  function Clamp(s: string, n: int): string {
    if n <= 0 || ByteLength(s) <= n then s
    else if |s| <= n then s
    else s[..n]
  }

  lemma {:induction false} RunesWithinBytes(s: string)
    ensures |s| <= ByteLength(s)
  {
    if s != [] { RunesWithinBytes(s[..|s| - 1]); }
  }

  /** `cut` is the text or, if it is too long, its first `n` characters. */
  ghost predicate CutTo(text: string, n: nat, cut: string) {
    cut <= text && (|text| <= n ==> cut == text) && (|text| > n ==> |cut| == n)
  }

  /** The longest prefix of at most `n` runes, whatever their width; clamping again changes nothing. */
  lemma ClampMeans(s: string, n: int)
    requires n > 0
    ensures CutTo(s, n, Clamp(s, n)) && Clamp(s, n) == if |s| <= n then s else s[..n]
    ensures Clamp(Clamp(s, n), n) == Clamp(s, n)
    ensures s != "" ==> Clamp(s, n) != ""
  {
    RunesWithinBytes(s);
  }

  /** Without a limit nothing is cut. */
  lemma Unlimited(s: string, n: int)
    requires n <= 0
    ensures Clamp(s, n) == s
  {
  }
}
