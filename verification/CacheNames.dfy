/** The printed names of cached frames (disk_cache.rs) and the parsers that read them back.

    Integers are printed and parsed the way Rust's standard library does it: a sign counts towards the padded width,
    a parse accepts one leading sign and fails outside the target type's range.
 */
module CacheNames {
  datatype Option<T> = None | Some(value: T)

  // ---- integer text ----

  const I64_MIN := -0x8000_0000_0000_0000
  const I64_MAX := 0x7FFF_FFFF_FFFF_FFFF
  const U64_MAX := 0xFFFF_FFFF_FFFF_FFFF
  const U32_MAX := 0xFFFF_FFFF

  type I64 = x: int | I64_MIN <= x <= I64_MAX
  type U64 = x: int | 0 <= x <= U64_MAX
  type U32 = x: int | 0 <= x <= U32_MAX

  function Digit(d: nat): char
    requires d < 10
  {
    ('0' as int + d) as char
  }

  predicate IsDigit(c: char) { '0' <= c <= '9' }

  function DigitValue(c: char): nat
    requires IsDigit(c)
  {
    c as int - '0' as int
  }

  predicate AllDigits(s: string) { forall i | 0 <= i < |s| :: IsDigit(s[i]) }

  function Digits(n: nat): (s: string)
    ensures AllDigits(s) && s != ""
  {
    if n < 10 then [Digit(n)] else Digits(n / 10) + [Digit(n % 10)]
  }

  function Value(s: string): nat
    requires AllDigits(s)
  {
    if s == "" then 0 else Value(s[..|s|-1]) * 10 + DigitValue(s[|s|-1])
  }

  function Zeros(n: nat): string { seq(n, _ => '0') }

  function ZeroPadded(n: nat, width: int): string {
    var digits := Digits(n);
    Zeros(if |digits| < width then width - |digits| else 0) + digits
  }

  /** `{n:0width}`: the sign goes first and counts towards the width. */
  function Padded(n: int, width: nat): string {
    if n < 0 then "-" + ZeroPadded(-n, width - 1) else ZeroPadded(n, width)
  }

  function Display(n: int): string { Padded(n, 0) }

  function ParseDigits(s: string): Option<nat> {
    if s != "" && AllDigits(s) then Some(Value(s)) else None
  }

  /** Rust's integer parse for a type whose values are lo..hi. */
  function ParseInt(s: string, lo: int, hi: int): (r: Option<int>)
    ensures r.Some? ==> lo <= r.value <= hi
  {
    var negative := s != "" && s[0] == '-' && lo < 0;
    var body := if negative || (s != "" && s[0] == '+') then s[1..] else s;
    match ParseDigits(body)
    case None => None
    case Some(v) =>
      var n: int := if negative then 0 - v else v;
      if lo <= n <= hi then Some(n) else None
  }

  lemma {:induction false} ValueOfDigits(n: nat)
    ensures Value(Digits(n)) == n
  {
    if n < 10 {
      assert Digits(n)[..0] == [];
    } else {
      ValueOfDigits(n / 10);
      var s := Digits(n);
      assert s[..|s|-1] == Digits(n / 10) && s[|s|-1] == Digit(n % 10);
    }
  }

  lemma {:induction false} LeadingZeros(n: nat, s: string)
    requires AllDigits(s)
    ensures AllDigits(Zeros(n) + s) && Value(Zeros(n) + s) == Value(s)
    decreases n + |s|
  {
    if s == "" {
      assert Zeros(n) + s == Zeros(n);
      if n > 0 {
        LeadingZeros(n - 1, s);
        assert Zeros(n - 1) + s == Zeros(n - 1) == Zeros(n)[..n-1];
      }
    } else {
      var front := s[..|s|-1];
      LeadingZeros(n, front);
      assert (Zeros(n) + s)[..n + |s| - 1] == Zeros(n) + front;
    }
  }

  ghost predicate Spells(s: string, n: nat) { s != "" && AllDigits(s) && Value(s) == n }

  lemma ZeroPaddedIsNumber(n: nat, width: int)
    ensures Spells(ZeroPadded(n, width), n)
  {
    var digits := Digits(n);
    ValueOfDigits(n);
    LeadingZeros(if |digits| < width then width - |digits| else 0, digits);
  }

  lemma ParseUnsigned(s: string, n: nat, lo: int, hi: int)
    requires Spells(s, n) && lo <= n <= hi
    ensures ParseInt(s, lo, hi) == Some(n)
  {
    assert IsDigit(s[0]);
  }

  lemma ParseNegative(s: string, n: nat, lo: int, hi: int)
    requires Spells(s, n) && lo < 0 && lo <= 0 - n <= hi
    ensures ParseInt("-" + s, lo, hi) == Some(0 - n)
  {
    assert ("-" + s)[1..] == s;
  }

  /** Printing with any padding and parsing again gives back the number. */
  lemma ParsePadded(n: int, width: nat, lo: int, hi: int)
    requires lo <= n <= hi && (n < 0 ==> lo < 0)
    ensures ParseInt(Padded(n, width), lo, hi) == Some(n)
  {
    if n < 0 {
      ZeroPaddedIsNumber(-n, width - 1);
      ParseNegative(ZeroPadded(-n, width - 1), -n, lo, hi);
    } else {
      ZeroPaddedIsNumber(n, width);
      ParseUnsigned(ZeroPadded(n, width), n, lo, hi);
    }
  }

  predicate IsNumberChar(c: char) { IsDigit(c) || c == '-' }

  predicate IsNumberText(s: string) { s != "" && forall i | 0 <= i < |s| :: IsNumberChar(s[i]) }

  lemma PaddedIsNumberText(n: int, width: nat)
    ensures IsNumberText(Padded(n, width))
  {
    if n < 0 { ZeroPaddedIsNumber(-n, width - 1); } else { ZeroPaddedIsNumber(n, width); }
  }

  // ---- splitting ----

  function StripSuffix(s: string, suffix: string): Option<string> {
    if |suffix| <= |s| && s[|s| - |suffix|..] == suffix then Some(s[..|s| - |suffix|]) else None
  }

  /** Around the first c. */
  function SplitOnce(s: string, c: char): Option<(string, string)> {
    if s == "" then None
    else if s[0] == c then Some(("", s[1..]))
    else match SplitOnce(s[1..], c)
      case None => None
      case Some((a, b)) => Some(([s[0]] + a, b))
  }

  /** Around the last c. */
  function RSplitOnce(s: string, c: char): Option<(string, string)> {
    if s == "" then None
    else if s[|s|-1] == c then Some((s[..|s|-1], ""))
    else match RSplitOnce(s[..|s|-1], c)
      case None => None
      case Some((a, b)) => Some((a, b + [s[|s|-1]]))
  }

  lemma {:induction false} SplitAtFirst(a: string, c: char, b: string)
    requires c !in a
    ensures SplitOnce(a + ([c] + b), c) == Some((a, b))
  {
    var s := a + ([c] + b);
    if a == "" {
      assert s[1..] == b;
    } else {
      SplitAtFirst(a[1..], c, b);
      assert s[1..] == a[1..] + ([c] + b);
      assert [s[0]] + a[1..] == a;
    }
  }

  lemma {:induction false} SplitAtLast(a: string, c: char, b: string)
    requires c !in b
    ensures RSplitOnce(a + [c] + b, c) == Some((a, b))
  {
    var s := a + [c] + b;
    if b == "" {
      assert s[..|s|-1] == a;
    } else {
      var front := b[..|b|-1];
      SplitAtLast(a, c, front);
      assert s[..|s|-1] == a + [c] + front;
      assert front + [s[|s|-1]] == b;
    }
  }

  lemma StripAdded(a: string, suffix: string)
    ensures StripSuffix(a + suffix, suffix) == Some(a)
  {
    assert (a + suffix)[|a|..] == suffix && (a + suffix)[..|a|] == a;
  }

  // ---- positions ----

  /** Rust's integer division and remainder: toward zero. */
  function Quot(a: int, b: nat): int
    requires b > 0
  {
    if a < 0 then -(-a / b) else a / b
  }

  function Rem(a: int, b: nat): int
    requires b > 0
  {
    if a < 0 then -(-a % b) else a % b
  }

  function Hours(ms: int): int { Quot(ms, 3_600_000) }
  function Minutes(ms: int): int { Quot(Rem(ms, 3_600_000), 60_000) }
  function Seconds(ms: int): int { Quot(Rem(ms, 60_000), 1_000) }
  function Millis(ms: int): int { Rem(ms, 1_000) }

  /** 41708 is printed as 00h00m41s708ms. */
  function FormatPosMs(ms: int): string { FormatUnits(Hours(ms), Minutes(ms), Seconds(ms), Millis(ms)) }

  function FormatUnits(h: int, m: int, s: int, r: int): string {
    Joined(Padded(h, 2), Padded(m, 2), Padded(s, 2), Padded(r, 3)) + "ms"
  }

  function Joined(hs: string, mins: string, secs: string, mss: string): string {
    hs + (['h'] + (mins + (['m'] + (secs + (['s'] + mss)))))
  }

  function ParseI64(s: string): Option<int> { ParseInt(s, I64_MIN, I64_MAX) }

  /** Two's complement, as a release build computes it. */
  function WrapI64(n: int): I64 {
    var m := n % 0x1_0000_0000_0000_0000;
    if m > I64_MAX then m - 0x1_0000_0000_0000_0000 else m
  }

  function ParsePosMs(text: string): Option<I64> {
    ParseUnits(match StripSuffix(text, "ms") case Some(t) => t case None => text)
  }

  function ParseUnits(s: string): Option<I64> {
    match SplitOnce(s, 'h') case None => None case Some((hs, rest)) =>
    match SplitOnce(rest, 'm') case None => None case Some((mins, rest2)) =>
    match SplitOnce(rest2, 's') case None => None case Some((secs, mss)) =>
    match ParseI64(hs) case None => None case Some(h) =>
    match ParseI64(mins) case None => None case Some(m) =>
    match ParseI64(secs) case None => None case Some(sec) =>
    match ParseI64(mss) case None => None case Some(ms) =>
    Some(WrapI64(h * 3_600_000 + m * 60_000 + sec * 1_000 + ms))
  }

  lemma UnitsOf(n: nat)
    ensures n / 3_600_000 * 3_600_000 + n % 3_600_000 / 60_000 * 60_000 + n % 60_000 / 1_000 * 1_000 + n % 1_000 == n
  {
    var hours, minutes, seconds := n / 3_600_000, n % 3_600_000 / 60_000, n % 60_000 / 1_000;
    RemainderOf(n, n % 3_600_000, 60_000, 60 * hours);
    RemainderOf(n, n % 60_000, 1_000, 60 * (60 * hours + minutes));
  }

  lemma RemainderOf(n: nat, r: nat, d: nat, k: nat)
    requires d > 0 && n == k * d + r
    ensures n % d == r % d
  {
    var q := r / d;
    assert n == (k + q) * d + r % d;
    UniqueQuotient(n, d, k + q, r % d);
  }

  lemma UniqueQuotient(n: nat, d: nat, q: nat, m: nat)
    requires d > 0 && n == q * d + m && m < d
    ensures n % d == m
  {
    var p := n / d;
    assert p * d + d == (p + 1) * d && q * d + d == (q + 1) * d;
    if p < q {
      Monotone(p + 1, q, d);
    } else if q < p {
      Monotone(q + 1, p, d);
    }
  }

  lemma Monotone(a: nat, b: nat, d: nat)
    requires a <= b
    ensures a * d <= b * d
  {
  }

  /** Truncating division splits a position into units of one sign, which add up again. */
  lemma UnitsAddUp(ms: int)
    ensures Hours(ms) * 3_600_000 + Minutes(ms) * 60_000 + Seconds(ms) * 1_000 + Millis(ms) == ms
  {
    UnitsOf(if ms < 0 then -ms else ms);
  }

  lemma UnitsAreSmall(ms: I64)
    ensures I64_MIN <= Hours(ms) <= I64_MAX && I64_MIN <= Minutes(ms) <= I64_MAX
    ensures I64_MIN <= Seconds(ms) <= I64_MAX && I64_MIN <= Millis(ms) <= I64_MAX
  {
  }

  lemma WrapKeepsI64(n: I64)
    ensures WrapI64(n) == n
  {
  }

  ghost predicate Names(text: string, n: int) { IsNumberText(text) && ParseI64(text) == Some(n) }

  lemma PaddedNames(n: I64, width: nat)
    ensures Names(Padded(n, width), n)
  {
    PaddedIsNumberText(n, width);
    ParsePadded(n, width, I64_MIN, I64_MAX);
  }

  lemma JoinedSplits(hs: string, mins: string, secs: string, mss: string)
    requires IsNumberText(hs) && IsNumberText(mins) && IsNumberText(secs)
    ensures var rest2 := secs + (['s'] + mss);
            var rest := mins + (['m'] + rest2);
            && SplitOnce(Joined(hs, mins, secs, mss), 'h') == Some((hs, rest))
            && SplitOnce(rest, 'm') == Some((mins, rest2)) && SplitOnce(rest2, 's') == Some((secs, mss))
  {
    var rest2 := secs + (['s'] + mss);
    var rest := mins + (['m'] + rest2);
    SplitAtFirst(hs, 'h', rest);
    SplitAtFirst(mins, 'm', rest2);
    SplitAtFirst(secs, 's', mss);
  }

  lemma PositionFields(hs: string, mins: string, secs: string, mss: string, h: int, m: int, s: int, r: int)
    requires Names(hs, h) && Names(mins, m) && Names(secs, s) && Names(mss, r)
    ensures ParseUnits(Joined(hs, mins, secs, mss)) == Some(WrapI64(h * 3_600_000 + m * 60_000 + s * 1_000 + r))
  {
    JoinedSplits(hs, mins, secs, mss);
  }

  lemma PositionTextRoundTrip(h: I64, m: I64, s: I64, r: I64)
    ensures ParsePosMs(FormatUnits(h, m, s, r)) == Some(WrapI64(h * 3_600_000 + m * 60_000 + s * 1_000 + r))
  {
    PaddedNames(h, 2);
    PaddedNames(m, 2);
    PaddedNames(s, 2);
    PaddedNames(r, 3);
    PositionFields(Padded(h, 2), Padded(m, 2), Padded(s, 2), Padded(r, 3), h, m, s, r);
    StripAdded(Joined(Padded(h, 2), Padded(m, 2), Padded(s, 2), Padded(r, 3)), "ms");
  }

  /** Every printed position, negative ones included, parses back to itself. */
  lemma PositionRoundTrip(ms: I64)
    ensures ParsePosMs(FormatPosMs(ms)) == Some(ms)
  {
    UnitsAreSmall(ms);
    PositionTextRoundTrip(Hours(ms), Minutes(ms), Seconds(ms), Millis(ms));
    UnitsAddUp(ms);
    WrapKeepsI64(ms);
  }

  // ---- file names ----

  datatype Frame = Frame(idx: I64, posMs: I64, width: U32)

  function Stem(idxText: string, posText: string, widthText: string): string {
    idxText + (['_'] + posText) + ['_'] + widthText
  }

  function FileName(f: Frame): string {
    Stem(Display(f.idx), FormatPosMs(f.posMs), Display(f.width)) + ".webp"
  }

  function ParseFileName(name: string): Option<Frame> {
    match StripSuffix(name, ".webp") case None => None case Some(stem) =>
    match RSplitOnce(stem, '_') case None => None case Some((rest, widthText)) =>
    match SplitOnce(rest, '_') case None => None case Some((idxText, posText)) =>
    match ParseI64(idxText) case None => None case Some(idx) =>
    match ParsePosMs(posText) case None => None case Some(posMs) =>
    match ParseInt(widthText, 0, U32_MAX) case None => None case Some(width) =>
    Some(Frame(idx, posMs, width))
  }

  lemma {:induction false} StemSplits(idxText: string, posText: string, widthText: string)
    requires IsNumberText(idxText) && IsNumberText(widthText)
    ensures RSplitOnce(Stem(idxText, posText, widthText), '_') == Some((idxText + (['_'] + posText), widthText))
    ensures SplitOnce(idxText + (['_'] + posText), '_') == Some((idxText, posText))
  {
    SplitAtLast(idxText + (['_'] + posText), '_', widthText);
    SplitAtFirst(idxText, '_', posText);
  }

  /** A printed file name parses back to the frame it names, for all values of its three fields. */
  lemma FileNameRoundTrip(f: Frame)
    ensures ParseFileName(FileName(f)) == Some(f)
  {
    PaddedNames(f.idx, 0);
    PaddedIsNumberText(f.width, 0);
    ParsePadded(f.width, 0, 0, U32_MAX);
    PositionRoundTrip(f.posMs);
    StripAdded(Stem(Display(f.idx), FormatPosMs(f.posMs), Display(f.width)), ".webp");
    StemSplits(Display(f.idx), FormatPosMs(f.posMs), Display(f.width));
  }

  /** So no two frames share a file name. */
  lemma FileNamesAreDistinct(f: Frame, g: Frame)
    requires FileName(f) == FileName(g)
    ensures f == g
  {
    FileNameRoundTrip(f);
    FileNameRoundTrip(g);
  }
}
