/** Names of numbered log archives: base.N and base.N.gz. */
module ArchiveName {
  import opened Options

  const MAX_INT := 0x7FFF_FFFF_FFFF_FFFF

  const GZ := ".gz"

  predicate IsExt(ext: string) { ext == "" || ext == GZ }

  // ---- Decimal numbers ----

  predicate IsDigit(c: char) { '0' <= c <= '9' }

  ghost predicate AllDigits(s: string) {
    forall i :: 0 <= i < |s| ==> IsDigit(s[i])
  }

  function DigitChar(d: nat): (c: char)
    requires d < 10
    ensures IsDigit(c)
  {
    '0' + d as char
  }

  function DigitValue(c: char): (d: nat)
    requires IsDigit(c)
    ensures d < 10
  {
    (c - '0') as nat
  }

  function Digits(n: nat): (s: string)
    ensures s != ""
  {
    if n < 10 then [DigitChar(n)] else Digits(n / 10) + [DigitChar(n % 10)]
  }

  function Value(s: string): nat
    requires AllDigits(s)
  {
    if s == "" then 0 else Value(s[..|s| - 1]) * 10 + DigitValue(s[|s| - 1])
  }

  function Zeros(k: nat): string { seq(k, _ => '0') }

  lemma {:induction false} ValueOfDigits(n: nat)
    ensures AllDigits(Digits(n)) && Value(Digits(n)) == n
  {
    if n >= 10 {
      ValueOfDigits(n / 10);
      var s := Digits(n);
      assert s[..|s| - 1] == Digits(n / 10);
    }
  }

  lemma AppendDigit(v: nat, d: nat)
    requires d < 10
    ensures Digits(v * 10 + d) == (if v == 0 then "" else Digits(v)) + [DigitChar(d)]
  {
    assert (v * 10 + d) / 10 == v && (v * 10 + d) % 10 == d;
  }

  /** Any digit string is the printed form of its value behind some zeros. */
  lemma {:induction false} DigitsOfValue(s: string) returns (k: nat)
    requires AllDigits(s) && Value(s) > 0
    ensures s == Zeros(k) + Digits(Value(s))
  {
    var n := |s| - 1;
    var front, d := s[..n], DigitValue(s[n]);
    assert s == front + [DigitChar(d)];
    AppendDigit(Value(front), d);
    if Value(front) == 0 {
      k := n;
      ZeroValue(front);
    } else {
      k := DigitsOfValue(front);
    }
  }

  lemma {:induction false} ZeroValue(s: string)
    requires AllDigits(s) && Value(s) == 0
    ensures s == Zeros(|s|)
  {
    if s != "" {
      ZeroValue(s[..|s| - 1]);
      assert DigitValue(s[|s| - 1]) == 0;
      assert s == s[..|s| - 1] + ['0'];
    }
  }

  // ---- Printing ----

  function Archive(base: string, n: nat, ext: string): string {
    base + "." + Digits(n) + ext
  }

  /** Indexes are printed in decimal, without leading zeros, the last digit last. */
  lemma PrintedInDecimal(n: nat)
    ensures forall d: nat :: d < 10 ==> DigitChar(d) == "0123456789"[d]
    ensures n >= 10 ==> Digits(n)[0] != '0' && Digits(n)[|Digits(n)| - 1] == "0123456789"[n % 10]
    ensures Archive("log", 10, GZ) == "log.10.gz"
  {
    assert Digits(10) == Digits(1) + [DigitChar(0)] == "10";
    if n >= 10 { NoLeadingZero(n); }
  }

  lemma {:induction false} NoLeadingZero(n: nat)
    requires n > 0
    ensures Digits(n)[0] != '0'
  {
    if n >= 10 { NoLeadingZero(n / 10); }
  }

  lemma {:induction false} DigitsInjective(n: nat, m: nat)
    requires Digits(n) == Digits(m)
    ensures n == m
  {
    ValueOfDigits(n);
    ValueOfDigits(m);
  }

  lemma NoDotIn(base: string, s: string, j: nat)
    requires AllDigits(s) && j < |s|
    ensures (base + "." + s)[|base| + 1 + j] != '.'
  {
    assert (base + "." + s)[|base| + 1 + j] == s[j];
  }

  /** The last dot of base.N is the one before N. */
  lemma LastDot(base: string, s: string, i: nat)
    requires AllDigits(s) && i < |base + "." + s|
    ensures (base + "." + s)[i] == '.' ==> i <= |base|
  {
    if i > |base| { NoDotIn(base, s, i - |base| - 1); }
  }

  lemma SplitsAtDot(base: string, base': string, s: string, s': string)
    requires AllDigits(s) && AllDigits(s') && base + "." + s == base' + "." + s'
    ensures base == base' && s == s'
  {
    var t := base + "." + s;
    assert t[|base|] == '.' && t[|base'|] == '.';
    LastDot(base, s, |base'|);
    LastDot(base', s', |base|);
    assert base == t[..|base|] && base' == t[..|base'|];
    assert s == t[|base| + 1..] && s' == t[|base'| + 1..];
  }

  /** The archives of all logs, indexes and extensions have distinct names. */
  lemma ArchiveInjective(base: string, n: nat, ext: string, base': string, n': nat, ext': string)
    requires IsExt(ext) && IsExt(ext') && Archive(base, n, ext) == Archive(base', n', ext')
    ensures base == base' && n == n' && ext == ext'
  {
    ValueOfDigits(n);
    ValueOfDigits(n');
    var a := Archive(base, n, ext);
    EndsInExt(base, n, ext);
    EndsInExt(base', n', ext');
    assert a[..|a| - |ext|] == base + "." + Digits(n) && a[..|a| - |ext'|] == base' + "." + Digits(n');
    SplitsAtDot(base, base', Digits(n), Digits(n'));
    DigitsInjective(n, n');
  }

  lemma ArchivesDiffer(base: string, n: nat, ext: string, base': string, n': nat, ext': string)
    requires IsExt(ext) && IsExt(ext')
    ensures Archive(base, n, ext) == Archive(base', n', ext') ==> base == base' && n == n' && ext == ext'
  {
    if Archive(base, n, ext) == Archive(base', n', ext') {
      ArchiveInjective(base, n, ext, base', n', ext');
    }
  }

  lemma EndsInExt(base: string, n: nat, ext: string)
    requires IsExt(ext)
    ensures var a := Archive(base, n, ext); ext == GZ <==> a[|a| - 1] == 'z'
  {
    ValueOfDigits(n);
    var d := Digits(n);
    var a := Archive(base, n, ext);
    if ext == "" { assert a[|a| - 1] == d[|d| - 1]; } else { assert a[|a| - 1] == ext[2]; }
  }

  // ---- Parsing ----

  function Stem(rest: string): string {
    if EndsWithGz(rest) then rest[..|rest| - 3] else rest
  }

  predicate EndsWithGz(s: string) {
    |s| >= 3 && s[|s| - 3..] == GZ
  }

  lemma GzEndsInZ(s: string)
    ensures EndsWithGz(s) ==> s[|s| - 1] == 'z'
  {
    assert |s| >= 3 ==> s[|s| - 3..][2] == s[|s| - 1];
  }

  /** The index and extension of `name` as a numbered backup of `base`, if it is one. */
  ghost function Parse(base: string, name: string): (r: Option<(nat, string)>)
    ensures r.Some? ==> 1 <= r.value.0 <= MAX_INT && IsExt(r.value.1)
  {
    if |name| <= |base| || name[..|base| + 1] != base + "." then None
    else
      var rest := name[|base| + 1..];
      var stem := Stem(rest);
      if stem != "" && AllDigits(stem) && 0 < Value(stem) <= MAX_INT then
        Some((Value(stem), if EndsWithGz(rest) then GZ else ""))
      else None
  }

  method ParseBackup(base: string, name: string) returns (r: Option<(nat, string)>)
    ensures r == Parse(base, name)
  {
    if name == base { return None; }
    if |name| <= |base| || name[..|base| + 1] != base + "." { return None; }
    var rest, ext := name[|base| + 1..], "";
    if EndsWithGz(rest) {
      assert Stem(rest) == rest[..|rest| - 3];
      rest, ext := rest[..|rest| - 3], GZ;
    }
    if rest == "" { return None; }
    var n := 0;
    for i := 0 to |rest|
      invariant AllDigits(rest[..i]) && n == Value(rest[..i])
    {
      if !IsDigit(rest[i]) { return None; }
      assert rest[..i + 1][..i] == rest[..i];
      n := n * 10 + DigitValue(rest[i]);
    }
    assert rest[..|rest|] == rest;
    if n > MAX_INT || n <= 0 { return None; }
    return Some((n, ext));
  }

  /** Parsing recovers what was printed, for every index that fits a signed 64-bit integer. */
  lemma ParseOfArchive(base: string, n: nat, ext: string)
    requires 1 <= n < 0x8000_0000_0000_0000 && IsExt(ext)
    ensures Parse(base, Archive(base, n, ext)) == Some((n, ext))
  {
    ValueOfDigits(n);
    var name := Archive(base, n, ext);
    var rest := name[|base| + 1..];
    assert name[..|base| + 1] == base + ".";
    assert rest == Digits(n) + ext;
    if ext == "" {
      assert rest == Digits(n) && IsDigit(rest[|rest| - 1]);
      GzEndsInZ(rest);
    } else {
      assert rest[|rest| - 3..] == GZ && rest[..|rest| - 3] == Digits(n);
    }
  }

  /** Any accepted name is a printed one, up to leading zeros of its index. */
  lemma ArchiveOfParse(base: string, name: string) returns (k: nat)
    requires Parse(base, name).Some?
    ensures var (n, ext) := Parse(base, name).value;
            1 <= n <= MAX_INT && IsExt(ext) && name == base + "." + Zeros(k) + Digits(n) + ext
  {
    hide Value, Digits, AllDigits;
    var rest := name[|base| + 1..];
    k := DigitsOfValue(Stem(rest));
    assert name == name[..|base| + 1] + rest;
    if EndsWithGz(rest) { assert rest == rest[..|rest| - 3] + rest[|rest| - 3..]; }
  }
}
