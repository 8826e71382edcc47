/**
 * The literal forms Python 2's int() and float() accept on a string, as used by the
 * type inference of Ska/Table.py. int(): surrounding whitespace, an optional sign,
 * more whitespace (the sign is consumed before the digit scanner skips blanks), then
 * decimal digits. float(): surrounding whitespace, an optional sign, then a decimal
 * mantissa with optional exponent, or one of inf / infinity / nan in any case. Both
 * are recognised left to right by a small automaton.
 */
module Literals {
  import opened Wrappers
  import opened Text

  predicate IsDigit(c: char) {
    '0' <= c <= '9'
  }

  predicate AllDigits(s: string) {
    forall i :: 0 <= i < |s| ==> IsDigit(s[i])
  }

  predicate IsSign(c: char) {
    c == '+' || c == '-'
  }

  /** Where int() is in a string: before the sign, after it, in the digits, after them. */
  datatype IntState = IntLead | IntSigned | IntDigits | IntTrail

  function IntScan(s: string, st: IntState): bool {
    if s == [] then st == IntDigits || st == IntTrail
    else
      var c, rest := s[0], s[1..];
      match st
      case IntLead =>
        if IsSpace(c) then IntScan(rest, IntLead)
        else if IsSign(c) then IntScan(rest, IntSigned)
        else IsDigit(c) && IntScan(rest, IntDigits)
      case IntSigned =>
        if IsSpace(c) then IntScan(rest, IntSigned) else IsDigit(c) && IntScan(rest, IntDigits)
      case IntDigits =>
        if IsDigit(c) then IntScan(rest, IntDigits) else IsSpace(c) && IntScan(rest, IntTrail)
      case IntTrail => IsSpace(c) && IntScan(rest, IntTrail)
  }

  /** int(s) succeeds. */
  predicate IsIntLiteral(s: string) {
    IntScan(s, IntLead)
  }

  const Infinity := "infinity"
  const NaN := "nan"

  predicate IsWordPrefix(w: string) {
    StartsWith(Infinity, w) || StartsWith(NaN, w)
  }

  predicate IsWord(w: string) {
    w == "inf" || w == Infinity || w == NaN
  }

  /** Where float() is in a string: before the sign, after it, in the whole digits, at a
      point with no digit yet, in the fraction, after the exponent mark, after the
      exponent sign, in the exponent digits, in a special word (lower-cased so far),
      after the number. */
  datatype FloatState =
    | FloatLead | FloatSigned | Whole | Point | Fraction
    | ExpMark | ExpSigned | ExpDigits | Letters(word: string) | FloatTrail

  /** The state after the first character of the number proper. */
  function FloatStart(c: char): Option<FloatState> {
    if IsDigit(c) then Some(Whole)
    else if c == '.' then Some(Point)
    else if IsWordPrefix([LowerChar(c)]) then Some(Letters([LowerChar(c)]))
    else None
  }

  predicate Accepting(st: FloatState) {
    match st
    case Whole => true
    case Fraction => true
    case ExpDigits => true
    case Letters(w) => IsWord(w)
    case FloatTrail => true
    case _ => false
  }

  function FloatScan(s: string, st: FloatState): bool {
    if s == [] then Accepting(st)
    else
      var c, rest := s[0], s[1..];
      match st
      case FloatLead =>
        if IsSpace(c) then FloatScan(rest, FloatLead)
        else if IsSign(c) then FloatScan(rest, FloatSigned)
        else FloatStart(c).Some? && FloatScan(rest, FloatStart(c).value)
      case FloatSigned => FloatStart(c).Some? && FloatScan(rest, FloatStart(c).value)
      case Whole =>
        if IsDigit(c) then FloatScan(rest, Whole)
        else if c == '.' then FloatScan(rest, Fraction)
        else if c == 'e' || c == 'E' then FloatScan(rest, ExpMark)
        else IsSpace(c) && FloatScan(rest, FloatTrail)
      case Point => IsDigit(c) && FloatScan(rest, Fraction)
      case Fraction =>
        if IsDigit(c) then FloatScan(rest, Fraction)
        else if c == 'e' || c == 'E' then FloatScan(rest, ExpMark)
        else IsSpace(c) && FloatScan(rest, FloatTrail)
      case ExpMark =>
        if IsSign(c) then FloatScan(rest, ExpSigned) else IsDigit(c) && FloatScan(rest, ExpDigits)
      case ExpSigned => IsDigit(c) && FloatScan(rest, ExpDigits)
      case ExpDigits =>
        if IsDigit(c) then FloatScan(rest, ExpDigits) else IsSpace(c) && FloatScan(rest, FloatTrail)
      case Letters(w) =>
        if IsSpace(c) then IsWord(w) && FloatScan(rest, FloatTrail)
        else IsWordPrefix(w + [LowerChar(c)]) && FloatScan(rest, Letters(w + [LowerChar(c)]))
      case FloatTrail => IsSpace(c) && FloatScan(rest, FloatTrail)
  }

  /** float(s) succeeds. */
  predicate IsFloatLiteral(s: string) {
    FloatScan(s, FloatLead)
  }

  /** The float state that shadows an int state. */
  function Shadow(st: IntState): FloatState {
    match st
    case IntLead => FloatLead
    case IntSigned => FloatSigned
    case IntDigits => Whole
    case IntTrail => FloatTrail
  }

  /** No whitespace follows a sign. */
  predicate TightSign(s: string) {
    forall i :: 0 <= i < |s| - 1 && IsSign(s[i]) ==> !IsSpace(s[i + 1])
  }

  lemma {:induction false} IntScanIsFloatScan(s: string, st: IntState)
    requires IntScan(s, st) && TightSign(s)
    requires st == IntSigned ==> s == [] || !IsSpace(s[0])
    ensures FloatScan(s, Shadow(st))
  {
    if s != [] {
      var c, rest := s[0], s[1..];
      assert TightSign(rest) by {
        assert forall i :: 0 <= i < |rest| ==> rest[i] == s[i + 1];
      }
      match st
      case IntLead =>
        if IsSpace(c) {
          IntScanIsFloatScan(rest, IntLead);
        } else if IsSign(c) {
          assert rest == [] || !IsSpace(rest[0]) by {
            if rest != [] {
              assert s[1] == rest[0];
            }
          }
          IntScanIsFloatScan(rest, IntSigned);
        } else {
          IntScanIsFloatScan(rest, IntDigits);
        }
      case IntSigned => IntScanIsFloatScan(rest, IntDigits);
      case IntDigits =>
        if IsDigit(c) {
          IntScanIsFloatScan(rest, IntDigits);
        } else {
          IntScanIsFloatScan(rest, IntTrail);
        }
      case IntTrail => IntScanIsFloatScan(rest, IntTrail);
    }
  }

  /** Every string int() accepts with its sign next to its digits, float() accepts too. */
  lemma IntLiteralIsFloat(s: string)
    requires IsIntLiteral(s) && TightSign(s)
    ensures IsFloatLiteral(s)
  {
    IntScanIsFloatScan(s, IntLead);
  }

  /** A blank after the sign separates the two: int("- 1") is -1 and float("- 1") fails,
      so a column of such values is int although not float. */
  lemma SpacedSignIntNotFloat(s: string)
    requires s == "- 1"
    ensures IsIntLiteral(s) && !IsFloatLiteral(s)
    ensures IntValue(s) == -1
  {
    var one, blankOne := s[2..], s[1..];
    assert one == "1" && blankOne == " 1" && one[1..] == [] && blankOne[1..] == one;
    assert IntScan(one, IntSigned);
    assert IntScan(blankOne, IntSigned);
    assert !IsWordPrefix([' ']) by {
      assert Infinity[..1] != [' '] && NaN[..1] != [' '];
    }
    assert !FloatScan(blankOne, FloatSigned);
    assert DigitsOf(s) == "1" by {
      assert DigitsOf(one) == "1";
      assert DigitsOf(blankOne) == "1";
    }
    assert '-' in s && DigitsValue("1") == 1;
  }

  /** The digits of a string, in order. */
  function DigitsOf(s: string): (d: string)
    ensures AllDigits(d)
  {
    if s == [] then []
    else if IsDigit(s[0]) then [s[0]] + DigitsOf(s[1..])
    else DigitsOf(s[1..])
  }

  function DigitsValue(s: string): (n: nat)
    requires AllDigits(s)
  {
    if s == [] then 0 else 10 * DigitsValue(s[..|s| - 1]) + (s[|s| - 1] as int - '0' as int)
  }

  /** The value int() gives a literal: its digits read in base 10, negated after a '-'. */
  function IntValue(s: string): int {
    var n: int := DigitsValue(DigitsOf(s));
    if '-' in s then -n else n
  }
}
