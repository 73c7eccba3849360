/** Aggregate identifiers and their "D" text form (`Guid.ToString("D")`),
    used to build both stream keys and read-model row keys. */
module Guids {
  import opened Outcomes

  type Nibble = n: int | 0 <= n < 16

  /** A GUID, held as the 32 hexadecimal digits the "D" format prints, in order. */
  type Guid = s: seq<Nibble> | |s| == 32 witness seq(32, _ => 0)

  /** The lower-case digits the "D" format emits. */
  predicate IsHexDigit(c: char)
  {
    '0' <= c <= '9' || 'a' <= c <= 'f'
  }

  function HexDigit(n: Nibble): (c: char)
    ensures IsHexDigit(c)
  {
    if n < 10 then ('0' as int + n) as char else ('a' as int + (n - 10)) as char
  }

  function HexValue(c: char): (n: Nibble)
    requires IsHexDigit(c)
    ensures HexDigit(n) == c
  {
    if c <= '9' then c as int - '0' as int else c as int - 'a' as int + 10
  }

  /** The "D" layout is 8-4-4-4-12 digits separated by four dashes. */
  predicate IsDashPosition(i: int)
  {
    i == 8 || i == 13 || i == 18 || i == 23
  }

  /** Which of the 32 digits is printed at character position `i`. */
  function DigitIndex(i: nat): (k: nat)
    requires i < 36 && !IsDashPosition(i)
    ensures k < 32
  {
    if i < 8 then i else if i < 13 then i - 1 else if i < 18 then i - 2 else if i < 23 then i - 3 else i - 4
  }

  /** The character position at which digit `k` is printed. */
  function DigitPosition(k: nat): (i: nat)
    requires k < 32
    ensures i < 36 && !IsDashPosition(i) && DigitIndex(i) == k
  {
    if k < 8 then k else if k < 12 then k + 1 else if k < 16 then k + 2 else if k < 20 then k + 3 else k + 4
  }

  /** Well-formed "D" text: 36 characters, dashes exactly at the four separator
      positions, lower-case hexadecimal digits everywhere else. */
  predicate IsFormatD(s: string)
  {
    |s| == 36 && forall i :: 0 <= i < 36 ==> if IsDashPosition(i) then s[i] == '-' else IsHexDigit(s[i])
  }

  function FormatD(g: Guid): (s: string)
    ensures IsFormatD(s)
    ensures forall k :: 0 <= k < 32 ==> s[DigitPosition(k)] == HexDigit(g[k])
  {
    seq(36, i requires 0 <= i < 36 => if IsDashPosition(i) then '-' else HexDigit(g[DigitIndex(i)]))
  }

  /** Reads "D" text back; the inverse of FormatD. */
  function ParseD(s: string): (r: Option<Guid>)
    ensures r.Some? <==> IsFormatD(s)
  {
    if IsFormatD(s) then Some(seq(32, k requires 0 <= k < 32 => HexValue(s[DigitPosition(k)]))) else None
  }

  /** Parsing the formatted text gives back the GUID. */
  lemma {:induction false} ParseFormatD(g: Guid)
    ensures ParseD(FormatD(g)) == Some(g)
  {
    var s := FormatD(g);
    var h := ParseD(s).value;
    forall k | 0 <= k < 32
      ensures h[k] == g[k]
    {
      assert s[DigitPosition(k)] == HexDigit(g[k]);
      assert HexDigit(h[k]) == HexDigit(g[k]);
    }
    assert h == g;
  }

  /** Formatting the parsed GUID gives back the text. */
  lemma {:induction false} FormatParseD(s: string)
    requires IsFormatD(s)
    ensures ParseD(s).Some? && FormatD(ParseD(s).value) == s
  {
    var g := ParseD(s).value;
    var t := FormatD(g);
    forall i | 0 <= i < 36
      ensures t[i] == s[i]
    {
      if !IsDashPosition(i) {
        var k := DigitIndex(i);
        assert DigitPosition(k) == i;
        assert t[i] == HexDigit(g[k]);
      }
    }
  }

  /** Distinct GUIDs print differently. */
  lemma FormatDInjective(a: Guid, b: Guid)
    ensures FormatD(a) == FormatD(b) <==> a == b
  {
    if FormatD(a) == FormatD(b) {
      ParseFormatD(a);
      ParseFormatD(b);
    }
  }
}
