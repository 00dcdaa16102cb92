/** Reading a number the way the interpreter's int() does: blanks around it, a sign, and single underscores between digits
    are accepted, in any script that has decimal digits. */
module Numerals {
  import opened Options
  import opened Strings

  type DecimalTable = d: char -> Option<nat> | forall c :: d(c).Some? ==> d(c).value < 10 witness _ => None

  /** What the character database says of characters beyond ASCII. */
  datatype CharTables = CharTables(space: char -> bool, decimal: DecimalTable)

  /** Characters beyond ASCII become a blank, a digit or something that is neither. */
  function AsciiChar(t: CharTables, c: char): char {
    if c as int < 0x80 then c
    else if t.space(c) then ' '
    else
      match t.decimal(c)
      case Some(d) => Digit(d)
      case None => '?'
  }

  function AsciiText(t: CharTables, s: string): string {
    if s == "" then "" else [AsciiChar(t, s[0])] + AsciiText(t, s[1..])
  }

  predicate Blank(c: char) {
    c == ' ' || '\t' <= c <= '\r'
  }

  function TrimLeft(s: string): string {
    if s != "" && Blank(s[0]) then TrimLeft(s[1..]) else s
  }

  function TrimRight(s: string): string {
    if s != "" && Blank(s[|s| - 1]) then TrimRight(s[..|s| - 1]) else s
  }

  /** The digits of a number whose underscores stand alone between digits. */
  function Digits(s: string): Option<string> {
    if s == "" || !IsDigit(s[0]) then None
    else if |s| == 1 then Some(s)
    else
      var rest := if s[1] == '_' then s[2..] else s[1..];
      match Digits(rest)
      case None => None
      case Some(digits) => Some([s[0]] + digits)
  }

  lemma {:induction false} DigitsAreDigits(s: string)
    ensures Digits(s).Some? ==> AllDigits(Digits(s).value)
  {
    if s != "" && IsDigit(s[0]) && |s| > 1 {
      DigitsAreDigits(if s[1] == '_' then s[2..] else s[1..]);
    }
  }

  function ReadInt(t: CharTables, s: string): Option<int> {
    var text := TrimRight(TrimLeft(AsciiText(t, s)));
    var signed := text != "" && (text[0] == '-' || text[0] == '+');
    match Digits(if signed then text[1..] else text)
    case None => None
    case Some(digits) =>
      DigitsAreDigits(if signed then text[1..] else text);
      var value: int := DecValue(digits);
      Some(if signed && text[0] == '-' then -value else value)
  }

  lemma {:induction false} DigitsOfDigits(s: string)
    requires s != "" && AllDigits(s)
    ensures Digits(s) == Some(s)
  {
    assert s[0] in s;
    if |s| > 1 {
      assert s[1] in s && forall c | c in s[1..] :: c in s;
      DigitsOfDigits(s[1..]);
      assert s == [s[0]] + s[1..];
    }
  }

  lemma {:induction false} AsciiOfDigits(t: CharTables, s: string)
    requires AllDigits(s)
    ensures AsciiText(t, s) == s
  {
    if s != "" {
      assert s[0] in s && forall c | c in s[1..] :: c in s;
      AsciiOfDigits(t, s[1..]);
      assert s == [s[0]] + s[1..];
    }
  }

  lemma NothingToTrim(s: string)
    requires s != "" && AllDigits(s)
    ensures TrimRight(TrimLeft(s)) == s && s[0] != '-' && s[0] != '+'
  {
    assert s[0] in s && s[|s| - 1] in s;
  }

  /** What is printed is read back. */
  lemma ReadPrinted(t: CharTables, n: nat)
    ensures ReadInt(t, Dec(n)) == Some(n)
  {
    AsciiOfDigits(t, Dec(n));
    NothingToTrim(Dec(n));
    DigitsOfDigits(Dec(n));
  }

  /** The reader is lenient: all of these are five. */
  lemma ReadLeniently(t: CharTables)
    ensures ReadInt(t, "+5") == ReadInt(t, " 5") == ReadInt(t, "0_5") == Some(5)
  {
    FiveReads(t);
    assert "+5"[1..] == "5" && " 5"[1..] == "5" && "0_5"[2..] == "5";
    assert Digits("5") == Some("5") && Digits("0_5") == Some("0" + "5");
    assert TrimLeft("5") == "5" && TrimLeft(" 5") == TrimLeft("5");
  }

  /** Characters beyond ASCII count as what they are: a blank before a number is skipped, a digit of any script is read, and
      anything else is refused. */
  lemma ReadBeyondAscii(t: CharTables, c: char)
    requires c as int >= 0x80
    ensures t.space(c) ==> ReadInt(t, [c] + "5") == Some(5)
    ensures !t.space(c) && t.decimal(c).Some? ==> ReadInt(t, [c]) == Some(t.decimal(c).value)
    ensures !t.space(c) && t.decimal(c) == None ==> ReadInt(t, [c]) == None
  {
    assert ([c] + "5")[0] == c && ([c] + "5")[1..] == "5" && [c][1..] == "" && "5"[1..] == "";
    assert AsciiText(t, "5") == "5" && AsciiText(t, [c]) == [AsciiChar(t, c)];
    if t.space(c) {
      assert AsciiText(t, [c] + "5") == " 5" && " 5"[1..] == "5";
      assert TrimLeft("5") == "5" && TrimLeft(" 5") == TrimLeft("5");
      assert Digits("5") == Some("5");
      OneDigit(5);
    } else if t.decimal(c).Some? {
      var d := Digit(t.decimal(c).value);
      assert AsciiText(t, [c]) == [d] && TrimLeft([d]) == [d] && Digits([d]) == Some([d]);
      OneDigit(t.decimal(c).value);
    } else {
      assert AsciiText(t, [c]) == "?" && TrimLeft("?") == "?";
    }
  }

  lemma OneDigit(d: nat)
    requires d < 10
    ensures DecValue([Digit(d)]) == d
  {
    assert [Digit(d)][..0] == "";
  }

  /** The six blanks of ASCII are skipped. */
  lemma ReadBlanks(t: CharTables, c: char)
    requires c == ' ' || c == '\t' || c == '\n' || c as int == 11 || c as int == 12 || c == '\r'
    ensures ReadInt(t, [c] + "5") == Some(5)
  {
    assert ([c] + "5")[0] == c && ([c] + "5")[1..] == "5" && "5"[1..] == "";
    assert AsciiText(t, "5") == "5" && AsciiText(t, [c] + "5") == [c] + "5";
    assert TrimLeft("5") == "5" && TrimLeft([c] + "5") == TrimLeft("5");
    assert Digits("5") == Some("5");
    OneDigit(5);
  }

  lemma FiveReads(t: CharTables)
    ensures AsciiText(t, "+5") == "+5" && AsciiText(t, " 5") == " 5" && AsciiText(t, "0_5") == "0_5"
    ensures DecValue("5") == 5 && DecValue("0" + "5") == 5
  {
    assert "+5"[1..] == "5" && " 5"[1..] == "5" && "5"[1..] == "" && "0_5"[1..] == "_5" && "_5"[1..] == "5";
    assert AsciiText(t, "5") == "5";
    assert AsciiText(t, "_5") == "_5";
    assert "5"[..0] == "" && ("0" + "5")[..1] == "0" && "0"[..0] == "";
    assert DecValue("0") == 0;
  }

  /** And it has limits: underscores stand alone between digits, and a letter or nothing is no number. */
  lemma ReadRefuses(t: CharTables)
    ensures ReadInt(t, "b") == None && ReadInt(t, "") == None && ReadInt(t, "_5") == None
  {
    assert "b"[1..] == "" && "_5"[1..] == "5" && "5"[1..] == "";
    assert AsciiText(t, "5") == "5" && AsciiText(t, "b") == "b" && AsciiText(t, "_5") == "_5";
    assert TrimLeft("b") == "b" && TrimLeft("_5") == "_5";
  }
}
