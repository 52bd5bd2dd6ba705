/**
 * `ParserError` of src/errors.rs and the text its `Display` implementation
 * renders: a caret under the offending column, then the message in quotes.
 */
module Errors {

  datatype ParserError = ParserError(position: nat, details: string)

  /** `ParserError::new`. */
  function New(position: nat, details: string): (e: ParserError)
    ensures e.position == position && e.details == details
  {
    ParserError(position, details)
  }

  /** `" ".repeat(n)`. */
  function Spaces(n: nat): (s: string)
    ensures |s| == n
    ensures forall i :: 0 <= i < n ==> s[i] == ' '
  {
    if n == 0 then [] else [' '] + Spaces(n - 1)
  }

  function DigitChar(d: nat): (c: char)
    requires d < 10
    ensures '0' <= c <= '9' && c as int - '0' as int == d
  {
    ('0' as int + d) as char
  }

  /** `format!("{}", n)` for an unsigned integer: its decimal digits, no leading zeros. */
  function Decimal(n: nat): (s: string)
    ensures |s| > 0
    ensures forall i :: 0 <= i < |s| ==> '0' <= s[i] <= '9'
    ensures s[0] == '0' ==> n == 0 && |s| == 1
  {
    if n < 10 then [DigitChar(n)] else Decimal(n / 10) + [DigitChar(n % 10)]
  }

  /** The number a string of decimal digits denotes. */
  function DecimalValue(s: string): nat
    requires forall i :: 0 <= i < |s| ==> '0' <= s[i] <= '9'
  {
    if s == [] then 0 else DecimalValue(s[..|s| - 1]) * 10 + (s[|s| - 1] as int - '0' as int)
  }

  /** Reading back the rendered decimal gives the number. */
  lemma {:induction false} DecimalRoundTrip(n: nat)
    ensures DecimalValue(Decimal(n)) == n
  {
    if n >= 10 {
      var s := Decimal(n);
      assert s[..|s| - 1] == Decimal(n / 10);
      DecimalRoundTrip(n / 10);
    }
  }

  /** The message `fmt` shows: the details, or a default naming the position. */
  function Message(e: ParserError): string
  {
    if e.details == [] then "Error at position " + Decimal(e.position) else e.details
  }

  /** The message names the position exactly when no details were given. */
  lemma DefaultMessage(e: ParserError)
    ensures e.details != [] ==> Message(e) == e.details
    ensures e.details == [] ==>
              (|Message(e)| > 18
               && Message(e)[..18] == "Error at position "
               && DecimalValue(Message(e)[18..]) == e.position)
  {
    if e.details == [] {
      var m := Message(e);
      assert m[18..] == Decimal(e.position);
      DecimalRoundTrip(e.position);
    }
  }

  /** `Display::fmt`: `position` spaces, `^`, a newline, a space, then the message in single quotes. */
  function Display(e: ParserError): (s: string)
    ensures |s| == e.position + 5 + |Message(e)|
    ensures forall i :: 0 <= i < e.position ==> s[i] == ' '
    ensures s[e.position..e.position + 4] == "^\n '"
    ensures s[e.position + 4..|s| - 1] == Message(e)
    ensures s[|s| - 1] == '\''
  {
    Spaces(e.position) + "^\n '" + Message(e) + "'"
  }

  /** The number of spaces that open `s`: the column of the caret in a rendered error. */
  function LeadingSpaces(s: string): nat
  {
    if s != [] && s[0] == ' ' then 1 + LeadingSpaces(s[1..]) else 0
  }

  lemma {:induction false} LeadingSpacesAfter(n: nat, t: string)
    requires t == [] || t[0] != ' '
    ensures LeadingSpaces(Spaces(n) + t) == n
  {
    if n > 0 {
      assert (Spaces(n) + t)[1..] == Spaces(n - 1) + t;
      LeadingSpacesAfter(n - 1, t);
    }
  }

  /** The caret column and the message can be read back from the rendering. */
  lemma DisplayReadBack(e: ParserError)
    ensures LeadingSpaces(Display(e)) == e.position
    ensures Display(e)[e.position + 4..|Display(e)| - 1] == Message(e)
  {
    assert Display(e) == Spaces(e.position) + ("^\n '" + Message(e) + "'");
    LeadingSpacesAfter(e.position, "^\n '" + Message(e) + "'");
  }

  /** Two errors that render alike have the same caret column and the same message. */
  lemma DisplayDetermines(e1: ParserError, e2: ParserError)
    requires Display(e1) == Display(e2)
    ensures e1.position == e2.position && Message(e1) == Message(e2)
  {
    DisplayReadBack(e1);
    DisplayReadBack(e2);
  }
}
