/** Numbers in log messages (src/display.rs, `HumanCount`). */
module Display {
  import opened Bits
  import opened Ipv4

  const DIGITS := 20

  // ----- what is printed -----

  /** The digits split into groups of three from the right, with a space between groups. */
  function Grouped(digits: string): string {
    if |digits| <= 3 then digits
    else Grouped(digits[..|digits| - 3]) + " " + digits[|digits| - 3..]
  }

  /** The text without its spaces. */
  function Ungrouped(text: string): string {
    if text == "" then ""
    else Ungrouped(text[..|text| - 1]) + if text[|text| - 1] == ' ' then "" else [text[|text| - 1]]
  }

  /** What the second loop has printed after `n` digits. */
  function Printed(digits: string, n: nat): string
    requires n <= |digits|
  {
    if n == 0 then ""
    else
      var before := Printed(digits, n - 1);
      (if n > 1 && (|digits| - (n - 1)) % 3 == 0 then before + " " else before) + [digits[n - 1]]
  }

  /** `Display::fmt`: fills the buffer from its end, then prints it from its start. */
  method Format(value: u64) returns (text: string)
    ensures text == Grouped(FormatNumber(value))
  {
    FitsBuffer(value);
    var buffer := new char[DIGITS];
    var rest := value;
    var start := buffer.Length;
    while true
      invariant 0 <= start <= buffer.Length
      invariant FormatNumber(value) == FormatNumber(rest) + buffer[start..]
      invariant |FormatNumber(rest)| <= start
      decreases rest
    {
      ghost var tail := buffer[start..];
      start := start - 1;
      buffer[start] := DigitChar(rest % 10);
      assert buffer[start..] == [DigitChar(rest % 10)] + tail;
      rest := rest / 10;
      if rest == 0 {
        assert buffer[start..] == FormatNumber(value);
        break;
      }
    }
    var digits := buffer[start..];
    text := "";
    for i := 0 to |digits|
      invariant text == Printed(digits, i)
    {
      if i > 0 && (|digits| - i) % 3 == 0 {
        text := text + " ";
      }
      text := text + [digits[i]];
    }
    PrintedAll(digits);
  }

  // ----- the buffer is large enough -----

  function Pow10(k: nat): nat {
    if k == 0 then 1 else 10 * Pow10(k - 1)
  }

  lemma {:induction false} LengthBound(n: nat, k: nat)
    requires 0 < k && n < Pow10(k)
    ensures |FormatNumber(n)| <= k
  {
    if n >= 10 {
      assert k > 1 by { assert Pow10(1) == 10 * Pow10(0); }
      LengthBound(n / 10, k - 1);
    }
  }

  /** No 64-bit number has more than twenty digits. */
  lemma FitsBuffer(value: u64)
    ensures |FormatNumber(value)| <= DIGITS
  {
    assert Pow10(5) == 100_000;
    assert Pow10(10) == 10_000_000_000;
    assert Pow10(15) == 1_000_000_000_000_000;
    assert Pow10(20) == 100_000_000_000_000_000_000;
    LengthBound(value, DIGITS);
  }

  // ----- left to right and right to left agree -----

  lemma {:induction false} PrintedShort(digits: string, n: nat)
    requires n + 3 <= |digits|
    ensures Printed(digits, n) == Printed(digits[..|digits| - 3], n)
  {
    if n > 0 { PrintedShort(digits, n - 1); }
  }

  lemma {:induction false} PrintedAll(digits: string)
    ensures Printed(digits, |digits|) == Grouped(digits)
  {
    var n := |digits|;
    if n <= 3 {
      assert n >= 1 ==> Printed(digits, 1) == digits[..1];
      assert n >= 2 ==> Printed(digits, 2) == digits[..2];
      assert n == 3 ==> Printed(digits, 3) == digits[..3];
      assert digits[..n] == digits;
    } else {
      PrintedShort(digits, n - 3);
      PrintedAll(digits[..n - 3]);
      PrintedGroup(digits);
      hide Printed;
    }
  }

  lemma PrintedGroup(digits: string)
    requires |digits| > 3
    ensures Printed(digits, |digits|) == Printed(digits, |digits| - 3) + " " + digits[|digits| - 3..]
  {
    var n := |digits|;
    PrintedStep(digits, n - 3);
    PrintedStep(digits, n - 2);
    PrintedStep(digits, n - 1);
    hide Printed;
    Appended(Printed(digits, n - 3) + " ", digits[n - 3..]);
  }

  lemma PrintedStep(digits: string, i: nat)
    requires i < |digits|
    ensures
      var before := Printed(digits, i);
      Printed(digits, i + 1) == (if i > 0 && (|digits| - i) % 3 == 0 then before + " " else before) + [digits[i]]
  {}

  lemma Appended(text: string, group: string)
    requires |group| == 3
    ensures text + [group[0]] + [group[1]] + [group[2]] == text + group
  {}

  // ----- the shape of the text -----

  lemma {:induction false} GroupedLength(digits: string)
    requires digits != ""
    ensures |Grouped(digits)| == |digits| + (|digits| - 1) / 3
  {
    if |digits| > 3 { GroupedLength(digits[..|digits| - 3]); }
  }

  lemma DigitsAreNoSpaces(c: char)
    requires IsDigit(c)
    ensures c != ' '
  {}

  lemma FourBack(k: nat)
    requires k > 3
    ensures (k - 4) / 4 == k / 4 - 1 && (k - 4) % 4 == k % 4
  {}

  lemma FromRight(digits: string, k: nat)
    requires |digits| > 3 && k < |Grouped(digits)|
    ensures
      var text, head := Grouped(digits), Grouped(digits[..|digits| - 3]);
      && |text| == |head| + 4
      && text[|text| - 1 - k] ==
         if k < 3 then digits[|digits| - 1 - k] else if k == 3 then ' ' else head[|head| - 1 - (k - 4)]
  {}

  /**
   * Counted from the right, every fourth character is a space and the others are the digits in order:
   * groups of three, the first of one to three digits.
   */
  lemma {:induction false} GroupsOfThree(digits: string, k: nat)
    requires digits != "" && (forall c <- digits :: IsDigit(c)) && k < |Grouped(digits)|
    ensures
      var c := Grouped(digits)[|Grouped(digits)| - 1 - k];
      && |Grouped(digits)| == |digits| + (|digits| - 1) / 3
      && (k % 4 == 3 <==> c == ' ')
      && (k % 4 != 3 ==> k - k / 4 < |digits| && c == digits[|digits| - 1 - (k - k / 4)])
  {
    GroupedLength(digits);
    var n := |digits|;
    if n > 3 {
      hide Grouped, IsDigit;
      FromRight(digits, k);
      assert digits == digits[..n - 3] + digits[n - 3..];
      if k < 3 {
        DigitsAreNoSpaces(digits[n - 1 - k]);
      } else if k > 3 {
        FourBack(k);
        GroupedLength(digits[..n - 3]);
        GroupsOfThree(digits[..n - 3], k - 4);
      }
    } else {
      assert Grouped(digits) == digits && IsDigit(digits[n - 1 - k]);
    }
  }

  lemma {:induction false} UngroupedAppend(a: string, b: string)
    ensures Ungrouped(a + b) == Ungrouped(a) + Ungrouped(b)
  {
    if b == "" {
      assert a + b == a;
    } else {
      UngroupedAppend(a, b[..|b| - 1]);
      assert (a + b)[..|a + b| - 1] == a + b[..|b| - 1];
    }
  }

  lemma {:induction false} UngroupedDigits(digits: string)
    requires forall c <- digits :: IsDigit(c)
    ensures Ungrouped(digits) == digits
  {
    if digits != "" {
      assert IsDigit(digits[|digits| - 1]);
      UngroupedDigits(digits[..|digits| - 1]);
    }
  }

  lemma GroupedStep(digits: string)
    ensures |digits| <= 3 ==> Grouped(digits) == digits
    ensures
      var n := |digits|;
      n > 3 ==> Grouped(digits) == Grouped(digits[..n - 3]) + " " + digits[n - 3..]
  {}

  lemma {:induction false} UngroupedGrouped(digits: string)
    requires forall c <- digits :: IsDigit(c)
    ensures Ungrouped(Grouped(digits)) == digits
  {
    hide Grouped, Ungrouped, IsDigit;
    GroupedStep(digits);
    if |digits| <= 3 {
      UngroupedDigits(digits);
    } else {
      var first, last := digits[..|digits| - 3], digits[|digits| - 3..];
      assert digits == first + last;
      UngroupedGrouped(first);
      UngroupedGroup(Grouped(first), last);
    }
  }

  lemma UngroupedGroup(head: string, digits: string)
    requires forall c <- digits :: IsDigit(c)
    ensures Ungrouped(head + " " + digits) == Ungrouped(head) + digits
  {
    assert Ungrouped(" ") == "" by { assert " "[..0] == ""; }
    hide Ungrouped;
    UngroupedAppend(head, " ");
    UngroupedAppend(head + " ", digits);
    UngroupedDigits(digits);
    assert Ungrouped(head) + "" == Ungrouped(head);
  }

  /** With the spaces removed, the text is the decimal number without leading zero that reads back to the value. */
  lemma ReadsBack(value: u64)
    ensures
      var digits := Ungrouped(Grouped(FormatNumber(value)));
      && 1 <= |digits| <= DIGITS
      && (forall c <- digits :: IsDigit(c))
      && DecimalValue(digits) == value
      && (digits[0] == '0' ==> value == 0 && digits == "0")
  {
    FormatNumberShape(value);
    FitsBuffer(value);
    UngroupedGrouped(FormatNumber(value));
  }
}
