/** The summary formatters of src/visuals/formatters.rs: a byte count with
    thousands separators, an address range in fixed-width hexadecimal, and
    the efficiency percentage (whose zero case is exact text and whose other
    case is a real number handed to a float rendering that is not
    modelled). src/printer.rs holds private copies of the same three
    functions with the same bodies; these members model both. */
module Formatters {
  import opened Common
  import opened Primitives
  import Stats

  // ---------------------------------------------------------------------
  // Decimal text

  predicate IsDigit(c: char)
  {
    '0' <= c <= '9'
  }

  function DigitChar(d: nat): (c: char)
    requires d < 10
    ensures IsDigit(c) && (c as int) - ('0' as int) == d
  {
    ('0' as int + d) as char
  }

  /** `to_string` of an unsigned integer: its decimal digits, most
      significant first, without leading zeros. */
  function Decimal(n: nat): (r: string)
    decreases n
    ensures |r| >= 1
    ensures forall i :: 0 <= i < |r| ==> IsDigit(r[i])
    ensures |r| > 1 ==> r[0] != '0'
  {
    if n < 10 then [DigitChar(n)] else Decimal(n / 10) + [DigitChar(n % 10)]
  }

  /** The value of a decimal digit. */
  function DigitValue(c: char): nat
  {
    if IsDigit(c) then (c as int) - ('0' as int) else 0
  }

  /** The number a run of decimal digits stands for. */
  function DigitsValue(s: string): nat
    decreases |s|
  {
    if s == [] then 0 else 10 * DigitsValue(s[..|s| - 1]) + DigitValue(s[|s| - 1])
  }

  /** Reading the decimal text back gives the number. */
  lemma {:induction false} DecimalRoundTrip(n: nat)
    decreases n
    ensures DigitsValue(Decimal(n)) == n
  {
    if n >= 10 {
      DecimalRoundTrip(n / 10);
      var d := Decimal(n);
      assert d[..|d| - 1] == Decimal(n / 10);
    }
  }

  // ---------------------------------------------------------------------
  // Thousands separators

  /** The loop of `format_bytes` over the reversed digits `r` from position
      `i` on: a comma before every position that is a non-zero multiple of
      3, then the character. */
  function GroupFrom(r: string, i: nat): string
    requires i <= |r|
    decreases |r| - i
  {
    if i == |r| then []
    else (if i > 0 && i % 3 == 0 then [','] else []) + [r[i]] + GroupFrom(r, i + 1)
  }

  /** The digits with their separators, in reading order: the loop's output
      reversed back. */
  function Grouped(digits: string): string
  {
    Reverse(GroupFrom(Reverse(digits), 0))
  }

  /** `format_bytes`. */
  method FormatBytes(bytes: nat) returns (s: string)
    ensures s == Grouped(Decimal(bytes)) + " bytes"
  {
    var rev := Reverse(Decimal(bytes));
    var result: string := [];
    var i := 0;
    while i < |rev|
      invariant i <= |rev|
      invariant result + GroupFrom(rev, i) == GroupFrom(rev, 0)
      decreases |rev| - i
    {
      ghost var before := result;
      if i > 0 && i % 3 == 0 {
        result := result + [','];
      }
      result := result + [rev[i]];
      assert before + GroupFrom(rev, i) == result + GroupFrom(rev, i + 1);
      i := i + 1;
    }
    assert result == GroupFrom(rev, 0);
    s := Reverse(result) + " bytes";
  }

  /** Three positions on, the loop does what it does at the start of the
      string with its first three characters removed, except that at the
      very start it writes no comma. */
  lemma {:induction false} GroupShift(r: string, i: nat)
    requires 1 <= i && i + 3 <= |r|
    decreases |r| - i
    ensures GroupFrom(r, i + 3) == GroupFrom(r[3..], i)
  {
    if i + 3 < |r| {
      GroupShift(r, i + 1);
      assert r[3..][i] == r[i + 3];
    }
  }

  /** Up to three characters get no separator. */
  lemma {:induction false} ShortGroup(r: string, i: nat)
    requires i <= |r| <= 3
    decreases |r| - i
    ensures GroupFrom(r, i) == r[i..]
  {
    if i < |r| {
      ShortGroup(r, i + 1);
      assert r[i..] == [r[i]] + r[i + 1..];
    }
  }

  /** At the fourth character the loop writes a comma and then what it
      writes for the string from there on its own. */
  lemma GroupAtThree(r: string)
    requires |r| > 3
    ensures GroupFrom(r, 3) == [','] + GroupFrom(r[3..], 0)
  {
    var rest := r[3..];
    var x := GroupFrom(r, 4);
    GroupComma(r, 3);
    GroupShift(r, 1);
    GroupPlain(rest, 0);
    assert rest[0] == r[3];
    ConsTwo(',', r[3], x);
  }

  /** Two elements put in front together, or one at a time. */
  lemma ConsTwo<T>(a: T, b: T, t: seq<T>)
    ensures [a, b] + t == [a] + ([b] + t)
  {
  }

  /** Read from the start, the loop writes three characters, a comma, and
      then what it writes for the rest on its own. */
  lemma GroupFront(r: string)
    requires |r| > 3
    ensures GroupFrom(r, 0) == [r[0], r[1], r[2], ','] + GroupFrom(r[3..], 0)
  {
    var t := GroupFrom(r[3..], 0);
    GroupAtThree(r);
    var g3 := GroupFrom(r, 3);
    GroupPlain(r, 2);
    GroupPlain(r, 1);
    GroupPlain(r, 0);
    ConsThree(r[0], r[1], r[2], ',', t);
  }

  /** Three elements put in front one at a time, before a fourth and a
      tail. */
  lemma ConsThree<T>(a: T, b: T, c: T, d: T, t: seq<T>)
    ensures [a] + ([b] + ([c] + ([d] + t))) == [a, b, c, d] + t
  {
    var l := [a] + ([b] + ([c] + ([d] + t)));
    assert |l| == 4 + |t|;
    forall i | 0 <= i < |l|
      ensures l[i] == ([a, b, c, d] + t)[i]
    {
    }
  }

  /** A turn of the loop that writes no comma. */
  lemma GroupPlain(r: string, i: nat)
    requires i < |r| && (i == 0 || i % 3 != 0)
    ensures GroupFrom(r, i) == [r[i]] + GroupFrom(r, i + 1)
  {
    assert [] + [r[i]] == [r[i]];
  }

  /** A turn of the loop that writes a comma first. */
  lemma GroupComma(r: string, i: nat)
    requires i < |r| && i > 0 && i % 3 == 0
    ensures GroupFrom(r, i) == [',', r[i]] + GroupFrom(r, i + 1)
  {
    assert [','] + [r[i]] == [',', r[i]];
  }

  /** Reversal of three parts. */
  lemma ReverseThree<T>(a: seq<T>, b: seq<T>, c: seq<T>)
    ensures Reverse(a + b + c) == Reverse(c) + Reverse(b) + Reverse(a)
  {
    var r := Reverse(a + b + c);
    var q := Reverse(c) + Reverse(b) + Reverse(a);
    assert |r| == |q|;
    forall i | 0 <= i < |r|
      ensures r[i] == q[i]
    {
      if i < |c| {
      } else if i < |c| + |b| {
      } else {
      }
    }
  }

  /** The separators split the digits into groups of three counted from
      the right: up to three digits stand alone, and longer runs are the
      grouping of all but the last three digits, a comma, and those three. */
  lemma GroupsOfThree(d: string)
    ensures |d| <= 3 ==> Grouped(d) == d
    ensures |d| > 3 ==> Grouped(d) == Grouped(d[..|d| - 3]) + [','] + d[|d| - 3..]
  {
    var r := Reverse(d);
    if |d| <= 3 {
      ShortGroup(r, 0);
      assert r[0..] == r;
      ReverseReverse(d);
    } else {
      GroupFront(r);
      var front := d[..|d| - 3];
      var tail := GroupFrom(r[3..], 0);
      var head := [r[0], r[1], r[2]];
      assert r[3..] == Reverse(front);
      assert Reverse(head) == d[|d| - 3..];
      assert Reverse([',']) == [','];
      assert [r[0], r[1], r[2], ','] + tail == head + [','] + tail;
      ReverseThree(head, [','], tail);
    }
  }

  /** The text without its commas. */
  function StripCommas(s: string): string
    decreases |s|
  {
    if s == [] then [] else (if s[0] == ',' then [] else [s[0]]) + StripCommas(s[1..])
  }

  lemma {:induction false} StripAppend(a: string, b: string)
    decreases |a|
    ensures StripCommas(a + b) == StripCommas(a) + StripCommas(b)
  {
    if a != [] {
      assert (a + b)[0] == a[0];
      assert (a + b)[1..] == a[1..] + b;
      StripAppend(a[1..], b);
    } else {
      assert a + b == b;
    }
  }

  lemma {:induction false} StripNone(s: string)
    requires ',' !in s
    decreases |s|
    ensures StripCommas(s) == s
  {
    if s != [] {
      StripNone(s[1..]);
    }
  }

  /** Removing the separators gives the digits back. */
  lemma {:induction false} GroupedStrips(d: string)
    requires ',' !in d
    decreases |d|
    ensures StripCommas(Grouped(d)) == d
  {
    GroupsOfThree(d);
    if |d| <= 3 {
      StripNone(d);
    } else {
      var front := d[..|d| - 3];
      var back := d[|d| - 3..];
      GroupedStrips(front);
      StripAfterComma(Grouped(front), back);
      assert front + back == d;
    }
  }

  /** A comma and then text free of commas: the comma goes, the text
      stays. */
  lemma StripAfterComma(g: string, back: string)
    requires ',' !in back
    ensures StripCommas(g + [','] + back) == StripCommas(g) + back
  {
    var sg := StripCommas(g);
    StripAppend(g, [',']);
    StripComma();
    assert sg + [] == sg;
    StripAppend(g + [','], back);
    StripNone(back);
  }

  /** A comma alone strips to nothing. */
  lemma StripComma()
    ensures StripCommas([',']) == []
  {
    assert [','][1..] == [];
  }

  /** A run of n digits gets (n - 1) / 3 separators. */
  lemma {:induction false} GroupedCommaCount(d: string)
    requires ',' !in d && |d| >= 1
    decreases |d|
    ensures Count(Grouped(d), ',') == (|d| - 1) / 3
  {
    GroupsOfThree(d);
    if |d| <= 3 {
      CountZero(d, ',');
    } else {
      var front := d[..|d| - 3];
      var back := d[|d| - 3..];
      GroupedCommaCount(front);
      CountAfterComma(Grouped(front), back);
      assert (|d| - 1) / 3 == (|front| - 1) / 3 + 1;
    }
  }

  /** A comma and then text free of commas add one to the count. */
  lemma CountAfterComma(g: string, back: string)
    requires ',' !in back
    ensures Count(g + [','] + back, ',') == Count(g, ',') + 1
  {
    CountAppend(g + [','], back, ',');
    CountAppend(g, [','], ',');
    CountZero(back, ',');
    assert Count([','], ',') == 1 by {
      assert [','][1..] == [];
    }
  }

  /** A grouping never starts with a separator. */
  lemma {:induction false} GroupedLeadsWithDigit(d: string)
    requires ',' !in d && |d| >= 1
    decreases |d|
    ensures |Grouped(d)| >= 1 && Grouped(d)[0] == d[0]
  {
    GroupsOfThree(d);
    if |d| > 3 {
      GroupedLeadsWithDigit(d[..|d| - 3]);
    }
  }

  /** What `format_bytes` promises: the text ends with " bytes"; before
      that, removing the commas leaves the decimal digits of the count,
      which read back as the count; the commas number (digits - 1) / 3,
      and none comes first. */
  lemma FormatBytesReadsBack(bytes: nat)
    ensures var s := Grouped(Decimal(bytes)) + " bytes";
      var body := s[..|s| - 6];
      var digits := StripCommas(body);
      && s[|s| - 6..] == " bytes"
      && digits == Decimal(bytes)
      && DigitsValue(digits) == bytes
      && Count(body, ',') == (|Decimal(bytes)| - 1) / 3
      && body[0] != ','
  {
    var d := Decimal(bytes);
    assert ',' !in d by {
      assert forall i :: 0 <= i < |d| ==> IsDigit(d[i]);
    }
    var s := Grouped(d) + " bytes";
    assert s[..|s| - 6] == Grouped(d);
    GroupedStrips(d);
    DecimalRoundTrip(bytes);
    GroupedCommaCount(d);
    GroupedLeadsWithDigit(d);
  }

  /** Seven digits get two separators: 1,234,567. */
  lemma GroupedSevenDigits(d: string)
    requires |d| == 7
    ensures Grouped(d) == [d[0], ','] + d[1..4] + [','] + d[4..]
  {
    GroupsOfThree(d);
    var front := d[..4];
    GroupsOfThree(front);
    GroupsOfThree(front[..1]);
    assert front[..1] == [d[0]];
    assert front[1..] == d[1..4];
  }

  // ---------------------------------------------------------------------
  // Hexadecimal addresses

  /** A digit of `{:X}`: 0-9, then upper-case A-F. */
  predicate IsUpperHex(c: char)
  {
    '0' <= c <= '9' || 'A' <= c <= 'F'
  }

  function HexDigit(d: nat): (c: char)
    requires d < 16
    ensures IsUpperHex(c)
  {
    if d < 10 then ('0' as int + d) as char else ('A' as int + d - 10) as char
  }

  function HexValueOf(c: char): nat
  {
    if '0' <= c <= '9' then (c as int) - ('0' as int)
    else if 'A' <= c <= 'F' then (c as int) - ('A' as int) + 10
    else 0
  }

  function Pow16(k: nat): (r: nat)
    ensures r >= 1
  {
    if k == 0 then 1 else 16 * Pow16(k - 1)
  }

  /** The low k hexadecimal digits of x, most significant first, in upper
      case. */
  function HexDigits(x: nat, k: nat): (r: string)
    ensures |r| == k
    ensures forall i :: 0 <= i < |r| ==> IsUpperHex(r[i])
  {
    if k == 0 then [] else HexDigits(x / 16, k - 1) + [HexDigit(x % 16)]
  }

  /** The number a run of hexadecimal digits stands for. */
  function HexValue(s: string): nat
    decreases |s|
  {
    if s == [] then 0 else 16 * HexValue(s[..|s| - 1]) + HexValueOf(s[|s| - 1])
  }

  /** k digits that fit read back as the number. */
  lemma {:induction false} HexRoundTrip(x: nat, k: nat)
    requires x < Pow16(k)
    ensures HexValue(HexDigits(x, k)) == x
  {
    if k > 0 {
      DivBelow(x, Pow16(k - 1));
      HexRoundTrip(x / 16, k - 1);
      var s := HexDigits(x, k);
      assert s[..|s| - 1] == HexDigits(x / 16, k - 1);
      assert HexValueOf(HexDigit(x % 16)) == x % 16;
    }
  }

  lemma DivBelow(x: nat, p: nat)
    requires x < 16 * p
    ensures x / 16 < p && x == 16 * (x / 16) + x % 16
  {
  }

  /** `{:08X}` of a `u32`: exactly eight upper-case digits. */
  function Hex8(x: u32): (r: string)
    ensures |r| == 8
  {
    HexDigits(x, 8)
  }

  /** `format_address_range`: the first and the last address of the range,
      `0x` and eight digits each, joined by `-`. The source computes the
      last address as the `u32` expression `start + allocated - 1`, which
      overflows when the sum leaves the address space and underflows only
      when both operands are zero; an empty range after a non-zero start
      yields `start - 1`. */
  function FormatAddressRange(start: u32, alloc: u32): (r: string)
    requires 1 <= start + alloc < U32_LIMIT
    ensures |r| == 21
  {
    "0x" + Hex8(start) + "-0x" + Hex8(start + alloc - 1)
  }

  /** The range text reads back as its first address and its last address,
      `start + alloc - 1`, both in upper-case digits. */
  lemma AddressRangeReadsBack(start: u32, alloc: u32)
    requires 1 <= start + alloc < U32_LIMIT
    ensures var r := FormatAddressRange(start, alloc);
      && r[..2] == "0x" && r[10..13] == "-0x"
      && HexValue(r[2..10]) == start
      && HexValue(r[13..]) == start + alloc - 1
      && (forall i :: 2 <= i < 10 || 13 <= i < 21 ==> IsUpperHex(r[i]))
  {
    var r := FormatAddressRange(start, alloc);
    assert Pow16(8) == U32_LIMIT;
    HexRoundTrip(start, 8);
    HexRoundTrip(start + alloc - 1, 8);
    assert r[2..10] == Hex8(start);
    assert r[13..] == Hex8(start + alloc - 1);
  }

  // ---------------------------------------------------------------------
  // Efficiency

  /** What `format_efficiency` produces: fixed text, or the percentage that
      `{:.1}%` renders. */
  datatype Rendered = Text(text: string) | Percentage(value: real)

  /** `format_efficiency`: exactly "0.0%" when nothing is allocated,
      otherwise the used share of the allocation in percent. */
  function FormatEfficiency(used: u32, alloc: u32): (r: Rendered)
    ensures alloc == 0 <==> r == Text("0.0%")
    ensures alloc > 0 ==> r.Percentage? && r.value * alloc as real == 100.0 * used as real
  {
    if alloc == 0 then Text("0.0%") else Percentage(Stats.Efficiency(used, alloc))
  }
}
