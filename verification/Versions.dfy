/** Kubernetes version strings: comparison without the leading "v" and the (major, minor)
    parser of the upgrade pre-flight. */
module Versions {
  import opened Common

  function TrimV(s: string): string { if s != [] && s[0] == 'v' then s[1..] else s }

  /** Two versions, ignoring one leading "v" on either side. */
  predicate SameVersion(a: string, b: string) { TrimV(a) == TrimV(b) }

  /** The characters Go's unicode.IsSpace accepts. */
  predicate IsSpace(c: char) {
    var x := c as int;
    9 <= x <= 13 || x == 32 || x == 0x85 || x == 0xA0 || x == 0x1680 || 0x2000 <= x <= 0x200A
    || x == 0x2028 || x == 0x2029 || x == 0x202F || x == 0x205F || x == 0x3000
  }

  function TrimLeft(s: string): string {
    if s != [] && IsSpace(s[0]) then TrimLeft(s[1..]) else s
  }

  function TrimRight(s: string): string {
    if s != [] && IsSpace(s[|s| - 1]) then TrimRight(s[..|s| - 1]) else s
  }

  function TrimSpace(s: string): string { TrimRight(TrimLeft(s)) }

  predicate IsDigit(c: char) { '0' <= c <= '9' }

  predicate AllDigits(s: string) { forall i :: 0 <= i < |s| ==> IsDigit(s[i]) }

  /** The part before the first '.', or everything. */
  function Head(s: string): (r: string)
    ensures |r| <= |s| && r == s[..|r|]
  {
    if s == [] || s[0] == '.' then [] else [s[0]] + Head(s[1..])
  }

  function LeadingDigits(s: string): string {
    if s == [] || !IsDigit(s[0]) then [] else [s[0]] + LeadingDigits(s[1..])
  }

  function Value(digits: string): nat
    requires AllDigits(digits)
  {
    if digits == [] then 0
    else 10 * Value(digits[..|digits| - 1]) + (digits[|digits| - 1] as int - '0' as int)
  }

  const MAX_INT: int := 0x7fff_ffff_ffff_ffff

  /** strconv.Atoi on a 64-bit platform. */
  function Atoi(s: string): Option<int> {
    var negative := s != [] && s[0] == '-';
    var digits := if s != [] && (s[0] == '-' || s[0] == '+') then s[1..] else s;
    if digits == [] || !AllDigits(digits) then None
    else
      var v: int := if negative then -(Value(digits) as int) else Value(digits);
      if -MAX_INT - 1 <= v <= MAX_INT then Some(v) else None
  }

  /** "v1.35.6", "1.35", "v1.35.5+build" give (1, 35); anything else gives nothing. */
  function ParseMajorMinor(version: string): Option<(int, int)> {
    var v := TrimV(TrimSpace(version));
    var first := Head(v);
    if |first| == |v| then None
    else
      var second := LeadingDigits(Head(v[|first| + 1..]));
      match (Atoi(first), Atoi(second))
      case (Some(major), Some(minor)) => if major < 0 then None else Some((major, minor))
      case _ => None
  }

  /** (major, minor) order. */
  predicate AtLeast(observed: (int, int), target: (int, int)) {
    !(observed.0 < target.0 || (observed.0 == target.0 && observed.1 < target.1))
  }

  // ------------------------------------------------ the parser recovers what was printed

  function Decimal(n: nat): (s: string)
    ensures s != [] && AllDigits(s) && Value(s) == n
  {
    if n < 10 then [('0' as int + n) as char]
    else
      var init, last := Decimal(n / 10), ('0' as int + n % 10) as char;
      assert (init + [last])[..|init|] == init;
      init + [last]
  }

  lemma {:induction false} HeadAppends(a: string, b: string)
    requires forall i :: 0 <= i < |a| ==> a[i] != '.'
    ensures Head(a + b) == a + Head(b)
  {
    if a == [] {
      assert a + b == b;
    } else {
      HeadAppends(a[1..], b);
      assert (a + b)[0] == a[0] && (a + b)[1..] == a[1..] + b;
      assert [a[0]] + (a[1..] + Head(b)) == a + Head(b);
    }
  }

  lemma {:induction false} LeadingDigitsSplits(a: string, b: string)
    requires AllDigits(a) && (b == [] || !IsDigit(b[0]))
    ensures LeadingDigits(a + b) == a
  {
    if a == [] {
      assert a + b == b;
    } else {
      LeadingDigitsSplits(a[1..], b);
      assert a + b == [a[0]] + (a[1..] + b) && a == [a[0]] + a[1..];
    }
  }

  /** Trimming on the right eats into the suffix only. */
  lemma {:induction false} TrimRightKeeps(a: string, b: string)
    requires a != [] && !IsSpace(a[|a| - 1])
    ensures exists k :: 0 <= k <= |b| && TrimRight(a + b) == a + b[..k]
  {
    if b == [] {
      assert a + b == a && b[..0] == [];
      assert TrimRight(a + b) == a + b[..0];
    } else if IsSpace(b[|b| - 1]) {
      assert (a + b)[..|a + b| - 1] == a + b[..|b| - 1];
      TrimRightKeeps(a, b[..|b| - 1]);
      var k :| 0 <= k <= |b| - 1 && TrimRight(a + b[..|b| - 1]) == a + b[..|b| - 1][..k];
      assert b[..|b| - 1][..k] == b[..k];
    } else {
      assert b[..|b|] == b;
      assert TrimRight(a + b) == a + b[..|b|];
    }
  }

  lemma ParseCore(ma: string, mi: string, rest: string)
    requires ma != [] && AllDigits(ma) && AllDigits(mi) && (rest == [] || !IsDigit(rest[0]))
    ensures var t := ma + (['.'] + (mi + rest));
            && TrimV(t) == t && Head(t) == ma && |t| > |ma|
            && LeadingDigits(Head(t[|ma| + 1..])) == mi
  {
    var t := ma + (['.'] + (mi + rest));
    assert IsDigit(ma[0]) && t[0] == ma[0];
    HeadAppends(ma, ['.'] + (mi + rest));
    assert t[|ma| + 1..] == mi + rest;
    HeadAppends(mi, rest);
    LeadingDigitsSplits(mi, Head(rest));
  }

  lemma AtoiRecovers(n: nat)
    requires n <= MAX_INT
    ensures Atoi(Decimal(n)) == Some(n)
  {
    assert IsDigit(Decimal(n)[0]);
  }

  /** What the pre-flight prints: an optional "v", the major and the minor number. */
  function Printed(v: bool, major: nat, minor: nat): string {
    (if v then ['v'] else []) + (Decimal(major) + (['.'] + Decimal(minor)))
  }

  lemma PrintedTrims(v: bool, major: nat, minor: nat, suffix: string)
    ensures exists k :: 0 <= k <= |suffix|
                        && TrimSpace(Printed(v, major, minor) + suffix) == Printed(v, major, minor) + suffix[..k]
  {
    var core := Printed(v, major, minor);
    assert IsDigit(Decimal(major)[0]) && IsDigit(Decimal(minor)[|Decimal(minor)| - 1]);
    assert (core + suffix)[0] == core[0] == if v then 'v' else Decimal(major)[0];
    assert core[|core| - 1] == Decimal(minor)[|Decimal(minor)| - 1];
    assert TrimLeft(core + suffix) == core + suffix;
    TrimRightKeeps(core, suffix);
  }

  lemma ParseTrimmed(trimmed: string, v: bool, ma: string, mi: string, rest: string)
    requires ma != [] && AllDigits(ma) && AllDigits(mi) && (rest == [] || !IsDigit(rest[0]))
    requires trimmed == (if v then ['v'] else []) + (ma + (['.'] + (mi + rest)))
    ensures var t := TrimV(trimmed);
            && Head(t) == ma && |t| > |ma| && LeadingDigits(Head(t[|ma| + 1..])) == mi
  {
    ParseCore(ma, mi, rest);
    assert v ==> trimmed[1..] == ma + (['.'] + (mi + rest));
    assert !v ==> trimmed == ma + (['.'] + (mi + rest));
  }

  /** Every rendering of (major, minor), with or without "v", with any suffix that does not
      begin with a digit, parses back to exactly (major, minor). */
  lemma ParseRecoversPrinted(v: bool, major: nat, minor: nat, suffix: string)
    requires major <= MAX_INT && minor <= MAX_INT
    requires suffix == [] || !IsDigit(suffix[0])
    ensures ParseMajorMinor(Printed(v, major, minor) + suffix) == Some((major, minor))
  {
    var version := Printed(v, major, minor) + suffix;
    PrintedTrims(v, major, minor, suffix);
    hide TrimSpace, Decimal, Head, LeadingDigits, Atoi, TrimV;
    var k :| 0 <= k <= |suffix| && TrimSpace(version) == Printed(v, major, minor) + suffix[..k];
    var ma, mi, rest := Decimal(major), Decimal(minor), suffix[..k];
    assert Printed(v, major, minor) + rest == (if v then ['v'] else []) + (ma + (['.'] + (mi + rest)));
    ParseTrimmed(TrimSpace(version), v, ma, mi, rest);
    AtoiRecovers(major);
    AtoiRecovers(minor);
  }

  // ------------------------------------------------ and reads nothing else

  /** Unicode white space. */
  ghost predicate Blank(c: char) {
    c as int in {0x09, 0x0A, 0x0B, 0x0C, 0x0D, 0x20, 0x85, 0xA0, 0x1680, 0x2000, 0x2001, 0x2002, 0x2003, 0x2004, 0x2005,
                 0x2006, 0x2007, 0x2008, 0x2009, 0x200A, 0x2028, 0x2029, 0x202F, 0x205F, 0x3000}
  }

  ghost predicate AllBlank(s: string) { forall i :: 0 <= i < |s| ==> Blank(s[i]) }

  /** `core` begins and ends with something. */
  ghost predicate Bare(core: string) { core == "" || (!Blank(core[0]) && !Blank(core[|core| - 1])) }

  lemma BlankIff(c: char)
    ensures Blank(c) <==> IsSpace(c)
  {
  }

  lemma {:induction false} TrimLeftSplits(s: string) returns (pre: string)
    ensures s == pre + TrimLeft(s) && AllBlank(pre) && (TrimLeft(s) != "" ==> !Blank(TrimLeft(s)[0]))
  {
    pre := "";
    if s != "" {
      BlankIff(s[0]);
      if IsSpace(s[0]) {
        pre := TrimLeftSplits(s[1..]);
        assert s == [s[0]] + s[1..];
        pre := [s[0]] + pre;
      }
    }
  }

  lemma {:induction false} TrimRightSplits(s: string) returns (post: string)
    ensures s == TrimRight(s) + post && AllBlank(post)
    ensures TrimRight(s) != "" ==> TrimRight(s)[0] == s[0] && !Blank(TrimRight(s)[|TrimRight(s)| - 1])
  {
    post := "";
    if s != "" {
      BlankIff(s[|s| - 1]);
      if IsSpace(s[|s| - 1]) {
        var init := s[..|s| - 1];
        post := TrimRightSplits(init);
        assert s == init + [s[|s| - 1]];
        post := post + [s[|s| - 1]];
      }
    }
  }

  /** What is trimmed off is blank, and what is left begins and ends with something. */
  lemma TrimSplits(s: string) returns (pre: string, post: string)
    ensures s == pre + TrimSpace(s) + post && AllBlank(pre) && AllBlank(post) && Bare(TrimSpace(s))
  {
    pre := TrimLeftSplits(s);
    post := TrimRightSplits(TrimLeft(s));
  }

  lemma {:induction false} TrimLeftSkips(pre: string, t: string)
    requires AllBlank(pre) && (t != "" ==> !Blank(t[0]))
    ensures TrimLeft(pre + t) == t
  {
    if pre == "" {
      assert pre + t == t;
      if t != "" { BlankIff(t[0]); }
    } else {
      BlankIff(pre[0]);
      assert (pre + t)[1..] == pre[1..] + t;
      TrimLeftSkips(pre[1..], t);
    }
  }

  lemma {:induction false} TrimRightSkips(t: string, post: string)
    requires AllBlank(post) && (t != "" ==> !Blank(t[|t| - 1]))
    ensures TrimRight(t + post) == t
  {
    if post == "" {
      assert t + post == t;
      if t != "" { BlankIff(t[|t| - 1]); }
    } else {
      BlankIff(post[|post| - 1]);
      assert (t + post)[..|t + post| - 1] == t + post[..|post| - 1];
      TrimRightSkips(t, post[..|post| - 1]);
    }
  }

  lemma BlankTrims(s: string)
    requires AllBlank(s)
    ensures TrimSpace(s) == ""
  {
    assert s + "" == s;
    TrimLeftSkips(s, "");
  }

  /** Trimming undoes any padding. */
  lemma TrimUndoes(pre: string, core: string, post: string)
    requires AllBlank(pre) && AllBlank(post) && Bare(core)
    ensures TrimSpace(pre + core + post) == core
  {
    if core == "" {
      assert pre + core + post == pre + post;
      BlankTrims(pre + post);
    } else {
      assert pre + core + post == pre + (core + post);
      assert (core + post)[0] == core[0];
      TrimLeftSkips(pre, core + post);
      TrimRightSkips(core, post);
    }
  }

  /** A decimal number with an optional sign that fits in 64 bits. */
  ghost predicate Spells(s: string, n: int) {
    exists digits ::
      && digits != "" && AllDigits(digits) && -0x8000_0000_0000_0000 <= n < 0x8000_0000_0000_0000
      && ((s == digits && n == Value(digits)) || (s == "+" + digits && n == Value(digits))
          || (s == "-" + digits && n == -(Value(digits) as int)))
  }

  lemma AtoiIff(s: string, n: int)
    ensures Atoi(s) == Some(n) <==> Spells(s, n)
  {
    if Atoi(s) == Some(n) {
      var digits := if s[0] == '-' || s[0] == '+' then s[1..] else s;
      assert s == if s[0] == '-' then "-" + digits else if s[0] == '+' then "+" + digits else digits;
    }
    if Spells(s, n) {
      var digits :| digits != "" && AllDigits(digits) && -0x8000_0000_0000_0000 <= n < 0x8000_0000_0000_0000
                    && ((s == digits && n == Value(digits)) || (s == "+" + digits && n == Value(digits))
                        || (s == "-" + digits && n == -(Value(digits) as int)));
      assert s != digits ==> s[1..] == digits;
      assert IsDigit(digits[0]);
    }
  }

  /** An optional "v", the major number, a dot, the minor number, and anything that does not begin
      with a digit. */
  ghost predicate Shaped(core: string, major: int, minor: int, v: string, ma: string, mi: string, rest: string) {
    && core == v + ma + "." + mi + rest && (v == "" || v == "v")
    && Spells(ma, major) && major >= 0 && mi != "" && AllDigits(mi) && Spells(mi, minor)
    && (rest == "" || !IsDigit(rest[0]))
  }

  ghost predicate Spelled(core: string, major: int, minor: int) {
    exists v, ma, mi, rest :: Shaped(core, major, minor, v, ma, mi, rest)
  }

  lemma {:induction false} HeadStops(s: string)
    ensures forall i :: 0 <= i < |Head(s)| ==> Head(s)[i] != '.'
    ensures |Head(s)| < |s| ==> s[|Head(s)|] == '.'
  {
    if s != "" && s[0] != '.' {
      HeadStops(s[1..]);
      assert s == [s[0]] + s[1..];
    }
  }

  lemma {:induction false} LeadingSplits(s: string)
    ensures AllDigits(LeadingDigits(s)) && |LeadingDigits(s)| <= |s| && LeadingDigits(s) == s[..|LeadingDigits(s)|]
    ensures |LeadingDigits(s)| < |s| ==> !IsDigit(s[|LeadingDigits(s)|])
  {
    if s != "" && IsDigit(s[0]) {
      LeadingSplits(s[1..]);
      assert s == [s[0]] + s[1..];
    }
  }

  /** The leading digits of what stands before the next dot are those of the whole. */
  lemma {:induction false} LeadingOfHead(s: string)
    ensures LeadingDigits(Head(s)) == LeadingDigits(s)
  {
    if s != "" && IsDigit(s[0]) {
      LeadingOfHead(s[1..]);
      assert Head(s)[1..] == Head(s[1..]);
    }
  }

  lemma SignedPlain(s: string, n: int)
    requires Spells(s, n)
    ensures s != "" && s[0] != 'v' && forall i :: 0 <= i < |s| ==> s[i] != '.'
  {
    var digits :| digits != "" && AllDigits(digits)
                  && (s == digits || s == "+" + digits || s == "-" + digits);
    forall i | 0 <= i < |s| ensures s[i] != '.' && s[i] != 'v' {
      if s != digits && i > 0 { assert s[i] == digits[i - 1] && IsDigit(digits[i - 1]); }
      if s == digits { assert IsDigit(digits[i]); }
    }
  }

  /** What the parser takes out of a string without its "v". */
  ghost predicate Parsed(t: string, major: int, minor: int) {
    && |Head(t)| < |t| && Atoi(Head(t)) == Some(major) && major >= 0
    && Atoi(LeadingDigits(Head(t[|Head(t)| + 1..]))) == Some(minor)
  }

  lemma HeadSplits(t: string)
    requires |Head(t)| < |t|
    ensures t == Head(t) + "." + t[|Head(t)| + 1..]
  {
    HeadStops(t);
  }

  lemma DigitsOff(after: string) returns (rest: string)
    ensures after == LeadingDigits(Head(after)) + rest
    ensures AllDigits(LeadingDigits(Head(after))) && (rest == "" || !IsDigit(rest[0]))
  {
    LeadingOfHead(after);
    LeadingSplits(after);
    rest := after[|LeadingDigits(after)|..];
  }

  /** Its parts: up to the first dot, the leading digits after it, and the rest. */
  lemma HeadParts(t: string) returns (ma: string, mi: string, rest: string)
    requires |Head(t)| < |t|
    ensures ma == Head(t) && mi == LeadingDigits(Head(t[|Head(t)| + 1..])) && t == ma + "." + mi + rest
    ensures AllDigits(mi) && (rest == "" || !IsDigit(rest[0]))
  {
    HeadSplits(t);
    ma := Head(t);
    var after := t[|ma| + 1..];
    rest := DigitsOff(after);
    hide *;
    mi := LeadingDigits(Head(after));
    assert t == ma + "." + (mi + rest);
  }

  lemma ParsedShapes(core: string, major: int, minor: int)
    requires Parsed(TrimV(core), major, minor)
    ensures Spelled(core, major, minor)
  {
    var ma, mi, rest := HeadParts(TrimV(core));
    AtoiIff(ma, major);
    AtoiIff(mi, minor);
    assert mi != "";
    var v := VBefore(core);
    hide *;
    ShapedAre(core, v, ma, mi, rest, major, minor);
  }

  lemma VBefore(core: string) returns (v: string)
    ensures (v == "" || v == "v") && core == v + TrimV(core)
  {
    v := if TrimV(core) == core then "" else "v";
  }

  lemma ShapedAre(core: string, v: string, ma: string, mi: string, rest: string, major: int, minor: int)
    requires core == v + (ma + "." + mi + rest) && (v == "" || v == "v") && Spells(ma, major) && major >= 0
    requires mi != "" && AllDigits(mi) && Spells(mi, minor) && (rest == "" || !IsDigit(rest[0]))
    ensures Spelled(core, major, minor)
  {
    hide Spells, AllDigits;
    assert core == v + ma + "." + mi + rest;
    assert Shaped(core, major, minor, v, ma, mi, rest);
  }

  lemma HeadOfShape(ma: string, mi: string, rest: string)
    requires AllDigits(mi) && (rest == "" || !IsDigit(rest[0])) && forall i :: 0 <= i < |ma| ==> ma[i] != '.'
    ensures var t := ma + ("." + (mi + rest));
            Head(t) == ma && t[|ma| + 1..] == mi + rest && LeadingDigits(Head(mi + rest)) == mi
  {
    HeadAppends(ma, "." + (mi + rest));
    assert Head("." + (mi + rest)) == "";
    LeadingOfHead(mi + rest);
    LeadingDigitsSplits(mi, rest);
  }

  lemma WithoutV(core: string, v: string, t: string)
    requires core == v + t && (v == "" || v == "v") && t != "" && t[0] != 'v'
    ensures TrimV(core) == t
  {
    if v == "v" { assert core[1..] == t; } else { assert core == t; }
  }

  lemma ShapedParses(core: string, major: int, minor: int, v: string, ma: string, mi: string, rest: string)
    requires Shaped(core, major, minor, v, ma, mi, rest)
    ensures Parsed(TrimV(core), major, minor)
  {
    hide Spells, Head, LeadingDigits, Atoi, TrimV, Value;
    SignedPlain(ma, major);
    var t := ma + ("." + (mi + rest));
    assert core == v + t && t[0] == ma[0];
    WithoutV(core, v, t);
    HeadOfShape(ma, mi, rest);
    AtoiIff(ma, major);
    AtoiIff(mi, minor);
  }

  /** What the parser sees of a trimmed string. */
  lemma ParsedIff(core: string, major: int, minor: int)
    ensures Parsed(TrimV(core), major, minor) <==> Spelled(core, major, minor)
  {
    hide Parsed, Shaped, TrimV;
    if Parsed(TrimV(core), major, minor) { ParsedShapes(core, major, minor); }
    if v, ma, mi, rest :| Shaped(core, major, minor, v, ma, mi, rest) {
      ShapedParses(core, major, minor, v, ma, mi, rest);
    }
  }

  /** The parser reads (major, minor) off a string exactly when it is blank-padded and of that shape. */
  lemma ParseIff(version: string, major: int, minor: int)
    ensures ParseMajorMinor(version) == Some((major, minor)) <==>
              exists pre, core, post :: && version == pre + core + post && AllBlank(pre) && AllBlank(post) && Bare(core)
                                        && Spelled(core, major, minor)
  {
    var pre, post := TrimSplits(version);
    ParsedIff(TrimSpace(version), major, minor);
    hide Spelled, Bare, AllBlank, TrimSpace, TrimV, Head, LeadingDigits, Atoi;
    if pre', core, post' :| && version == pre' + core + post' && AllBlank(pre') && AllBlank(post') && Bare(core)
                            && Spelled(core, major, minor) {
      TrimUndoes(pre', core, post');
    }
  }

  /** Two versions are the same exactly when they are equal or one is the other behind a "v". */
  lemma SameVersionIff(a: string, b: string)
    ensures SameVersion(a, b) <==>
              || a == b || (a == "v" + b && (b == "" || b[0] != 'v')) || (b == "v" + a && (a == "" || a[0] != 'v'))
  {
    assert a != "" ==> a == [a[0]] + a[1..];
    assert b != "" ==> b == [b[0]] + b[1..];
  }
}
