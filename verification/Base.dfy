/** Option and Result, machine-width bounds, blank-string validation and generated ids. */
module Base {

  datatype Option<+T> = None | Some(value: T)

  datatype Result<+T, +E> = Ok(value: T) | Err(error: E)

  const U64_MAX: nat := 0xFFFF_FFFF_FFFF_FFFF

  type U64 = x: nat | x <= U64_MAX

  /** The Unicode White_Space property, which Rust's `str::trim` strips. */
  predicate IsWhitespace(c: char) {
    || '\t' <= c <= '\r' || c == ' ' || c == '\U{85}' || c == '\U{A0}' || c == '\U{1680}'
    || '\U{2000}' <= c <= '\U{200A}' || c == '\U{2028}' || c == '\U{2029}' || c == '\U{202F}'
    || c == '\U{205F}' || c == '\U{3000}'
  }

  /** What `validate_non_empty` rejects: the value trims to the empty string. */
  predicate Blank(s: string) {
    forall i :: 0 <= i < |s| ==> IsWhitespace(s[i])
  }

  /** Decimal rendering, as Rust's integer `Display`. */
  function Decimal(n: nat): string {
    if n < 10 then [('0' as int + n) as char] else Decimal(n / 10) + [('0' as int + n % 10) as char]
  }

  lemma {:induction false} DecimalIsInjective(a: nat, b: nat)
    requires Decimal(a) == Decimal(b)
    ensures a == b
  {
    var s, t := Decimal(a), Decimal(b);
    assert s[|s| - 1] == t[|t| - 1];
    if a >= 10 && b >= 10 {
      assert s[..|s| - 1] == Decimal(a / 10) && t[..|t| - 1] == Decimal(b / 10);
      DecimalIsInjective(a / 10, b / 10);
    } else {
      DecimalIsNotEmpty(a / 10);
      DecimalIsNotEmpty(b / 10);
    }
  }

  lemma DecimalIsNotEmpty(n: nat)
    ensures |Decimal(n)| >= 1
  {
  }

  /** `next_id`: the prefix, a hyphen and the sequence number. */
  function Id(prefix: string, n: nat): string {
    prefix + "-" + Decimal(n)
  }

  /** The id was handed out by `next_id` while the sequence was at most `upTo`. */
  ghost predicate Issued(prefix: string, id: string, upTo: nat) {
    exists n: nat :: n <= upTo && id == Id(prefix, n)
  }

  lemma NextIdIsFresh(prefix: string, upTo: nat)
    ensures !Issued(prefix, Id(prefix, upTo + 1), upTo)
    ensures Issued(prefix, Id(prefix, upTo + 1), upTo + 1)
  {
    var next := Id(prefix, upTo + 1);
    forall n: nat | n <= upTo
      ensures next != Id(prefix, n)
    {
      if next == Id(prefix, n) {
        assert next[|prefix| + 1..] == Decimal(upTo + 1);
        assert Id(prefix, n)[|prefix| + 1..] == Decimal(n);
        DecimalIsInjective(upTo + 1, n);
      }
    }
  }

  // ---------- trimming ----------

  /** The twenty-five code points with the Unicode White_Space property. */
  lemma WhitespaceCodePoints(c: char)
    ensures IsWhitespace(c) <==>
            c as int in {0x09, 0x0A, 0x0B, 0x0C, 0x0D, 0x20, 0x85, 0xA0, 0x1680, 0x2000, 0x2001, 0x2002, 0x2003, 0x2004,
                         0x2005, 0x2006, 0x2007, 0x2008, 0x2009, 0x200A, 0x2028, 0x2029, 0x202F, 0x205F, 0x3000}
  {
    assert ' ' as int == 0x20;
  }

  function TrimStart(s: string): string {
    if s != "" && IsWhitespace(s[0]) then TrimStart(s[1..]) else s
  }

  function TrimEnd(s: string): string {
    if s != "" && IsWhitespace(s[|s| - 1]) then TrimEnd(s[..|s| - 1]) else s
  }

  /** A value is blank exactly when trimming leaves nothing. */
  lemma BlankIsTrimmedAway(s: string)
    ensures Blank(s) <==> TrimEnd(TrimStart(s)) == ""
  {
    StartKeepsBlank(s);
    EndKeepsBlank(TrimStart(s));
  }

  lemma {:induction false} StartKeepsBlank(s: string)
    ensures Blank(s) <==> Blank(TrimStart(s))
  {
    if s != "" && IsWhitespace(s[0]) {
      StartKeepsBlank(s[1..]);
      assert s == [s[0]] + s[1..];
    }
  }

  lemma {:induction false} EndKeepsBlank(s: string)
    ensures Blank(s) <==> TrimEnd(s) == ""
  {
    if s != "" && IsWhitespace(s[|s| - 1]) {
      EndKeepsBlank(s[..|s| - 1]);
      assert s == s[..|s| - 1] + [s[|s| - 1]];
    }
  }
}
