/**
 * What the React components share: JavaScript's conversions of a value to
 * text and to a number (`String(v)`, `Number(v)`, `parseInt`, the `*`
 * operator, an array-like `length`) and the two orders their lists are
 * shown in.
 */
module Ui {
  import opened Values
  import opened Seqs
  import opened Text

  /** `String(v)`; an array is its elements joined by ",", with null and undefined as "". */
  function ToText(v: Value): string
    decreases v, 1, 0
  {
    match v
    case Undefined => "undefined"
    case Null => "null"
    case Bool(b) => if b then "true" else "false"
    case Num(n) => IntToString(n)
    case NaN => "NaN"
    case Str(s) => s
    case List(items) => if items == [] then "" else ElementsText(v, 0)
    case Obj(_) => "[object Object]"
  }

  /** The text of the elements of the array `v` from position `i` on, joined by ",". */
  function ElementsText(v: Value, i: nat): string
    requires v.List? && i < |v.items|
    decreases v, 0, |v.items| - i
  {
    var head := if v.items[i] == Undefined || v.items[i] == Null then "" else ToText(v.items[i]);
    if i + 1 < |v.items| then head + "," + ElementsText(v, i + 1) else head
  }

  /** The text `join` writes for one element: null and undefined become "". */
  function ElementText(x: Value): string
  {
    if x == Undefined || x == Null then "" else ToText(x)
  }

  /** `Number(s)` for a string: blank is 0, a signed decimal or an unsigned `0x` numeral its value, anything else NaN (`None`). */
  function StringToNumber(s: string): Option<int>
  {
    NumeralValue(TrimStart(TrimEnd(s)))
  }

  /** The value of a numeral with no white space around it. */
  function NumeralValue(t: string): Option<int>
  {
    if t == "" then Some(0)
    else if |t| >= 2 && t[0] == '0' && (t[1] == 'x' || t[1] == 'X') then
      if AllDigits(t[2..], 16) then Some(DigitsValue(t[2..], 16)) else None
    else
      var u := if t[0] == '-' || t[0] == '+' then t[1..] else t;
      if AllDigits(u, 10) then
        var w: int := DigitsValue(u, 10);
        Some(if t[0] == '-' then -w else w)
      else None
  }

  /** `Number(v)`, the conversion behind `*` and `length`; `None` is NaN. */
  function ToNumber(v: Value): (r: Option<int>)
    ensures v.Num? ==> r == Some(v.n)
    ensures v == Null ==> r == Some(0)
    ensures v == Undefined || v == NaN || v.Obj? ==> r == None
  {
    match v
    case Undefined => None
    case Null => Some(0)
    case Bool(b) => Some(if b then 1 else 0)
    case Num(n) => Some(n)
    case NaN => None
    case Str(s) => StringToNumber(s)
    case List(_) => StringToNumber(ToText(v))
    case Obj(_) => None
  }

  /** A decimal digit is no white space. */
  lemma DigitIsNoSpace(c: char)
    requires DigitValue(c) < 10
    ensures '0' <= c <= '9' && !IsJsWhitespace(c)
  {
  }

  /** The text of a number has no white space at either end. */
  lemma IntTextTrimmed(n: int)
    ensures TrimStart(TrimEnd(IntToString(n))) == IntToString(n)
  {
    var m: nat := if n < 0 then -n else n;
    var s := IntToString(n);
    var digits := NatToString(m);
    assert s == (if n < 0 then "-" else "") + digits;
    assert s[|s| - 1] == digits[|digits| - 1];
    DigitIsNoSpace(digits[|digits| - 1]);
    assert TrimEnd(s) == s;
    if n >= 0 {
      DigitIsNoSpace(digits[0]);
    }
    assert !IsJsWhitespace(s[0]);
  }

  /** `Number` on text that is a sign-free decimal numeral without a leading zero, or one behind a minus sign. */
  lemma DecimalTextNumber(t: string, negative: bool, digits: string)
    requires AllDigits(digits, 10) && (|digits| >= 2 ==> digits[0] != '0')
    requires t == (if negative then "-" else "") + digits
    ensures NumeralValue(t) == Some(if negative then -(DigitsValue(digits, 10) as int) else DigitsValue(digits, 10))
  {
    if negative {
      NegativeNumeral(t, digits);
    } else {
      assert t == digits;
      PlainNumeral(t);
    }
  }

  /** A minus sign followed by decimal digits. */
  lemma NegativeNumeral(t: string, digits: string)
    requires AllDigits(digits, 10) && t == "-" + digits
    ensures NumeralValue(t) == Some(-(DigitsValue(digits, 10) as int))
  {
    assert t[0] == '-' && t[1..] == digits;
  }

  /** Decimal digits with no leading zero. */
  lemma PlainNumeral(t: string)
    requires AllDigits(t, 10) && (|t| >= 2 ==> t[0] != '0')
    ensures NumeralValue(t) == Some(DigitsValue(t, 10))
  {
    DigitIsNoSpace(t[0]);
    assert t[0] != '-' && t[0] != '+';
  }

  /** Numbers printed by `String` read back through `Number`. */
  lemma NumberRoundTrip(n: int)
    ensures ToNumber(Str(IntToString(n))) == Some(n)
  {
    var m: nat := if n < 0 then -n else n;
    var digits := NatToString(m);
    var s := IntToString(n);
    assert s == (if n < 0 then "-" else "") + digits;
    IntTextTrimmed(n);
    assert ToNumber(Str(s)) == NumeralValue(s);
    NatToStringValue(m);
    if m >= 1 {
      NatToStringLeadingDigit(m);
    }
    assert AllDigits(digits, 10);
    DecimalTextNumber(s, n < 0, digits);
  }

  /** `a * b` on two values: the product of their numbers, NaN when either is not a number. */
  function Times(a: Value, b: Value): (r: Value)
    ensures r.Num? <==> ToNumber(a).Some? && ToNumber(b).Some?
    ensures r.Num? ==> r.n == ToNumber(a).value * ToNumber(b).value
    ensures !r.Num? ==> r == NaN
  {
    match (ToNumber(a), ToNumber(b))
    case (Some(x), Some(y)) => Num(x * y)
    case _ => NaN
  }

  /** Multiplication does not depend on the order of its operands. */
  lemma TimesCommutes(a: Value, b: Value)
    ensures Times(a, b) == Times(b, a)
  {
    if ToNumber(a).Some? && ToNumber(b).Some? {
      assert ToNumber(a).value * ToNumber(b).value == ToNumber(b).value * ToNumber(a).value;
    }
  }

  /** The `length` of `{ length: v }` as `Array.from` reads it: NaN and negative numbers give 0. */
  function ToLength(v: Value): (n: nat)
    ensures v.Num? ==> n == if v.n < 0 then 0 else v.n
    ensures ToNumber(v).None? ==> n == 0
  {
    match ToNumber(v)
    case None => 0
    case Some(x) => if x < 0 then 0 else x
  }

  /** `parseInt(v)`: `v` is turned into text first. */
  function ParseIntValue(v: Value): (r: Value)
    ensures r.Num? || r == NaN
    ensures r == NaN <==> ParseInt(ToText(v)).None?
    ensures r.Num? ==> ParseInt(ToText(v)) == Some(r.n)
  {
    match ParseInt(ToText(v))
    case None => NaN
    case Some(n) => Num(n)
  }

  /** `parseInt` leaves a number as it is. */
  lemma ParseIntOfNumber(n: int)
    ensures ParseIntValue(Num(n)) == Num(n)
  {
    ParseIntRoundTrip(n);
  }

  /** `parseInt(NaN)` reads the text "NaN", which holds no digit. */
  lemma ParseIntOfNaN()
    ensures ParseIntValue(NaN) == NaN
  {
    var s := ToText(NaN);
    assert s == "NaN";
    assert !IsJsWhitespace(s[0]);
    assert TrimStart(s) == s;
    assert DigitValue(s[0]) >= 10;
    assert DigitPrefixLength(s, 10) == 0;
  }

  /** `parseInt` of what `parseInt` returned changes nothing. */
  lemma ParseIntTwice(v: Value)
    ensures ParseIntValue(ParseIntValue(v)) == ParseIntValue(v)
  {
    if ParseIntValue(v).Num? {
      ParseIntOfNumber(ParseIntValue(v).n);
    } else {
      ParseIntOfNaN();
    }
  }

  /** The `created_at` text of a record; the store writes it as an ISO timestamp. */
  function CreatedAt(r: Record): string
  {
    if Get(r, "created_at").Str? then Get(r, "created_at").s else ""
  }

  /**
   * The order of `(a, b) => new Date(b.created_at) - new Date(a.created_at)`:
   * `a` may come before `b` when it is at least as recent. ISO timestamps of
   * one format compare in time as they compare as text.
   */
  predicate NewerFirst(a: Record, b: Record)
  {
    StrLe(CreatedAt(b), CreatedAt(a))
  }

  lemma NewerFirstIsTotal()
    ensures TotalPreorder(NewerFirst)
  {
    forall a: Record, b: Record
      ensures NewerFirst(a, b) || NewerFirst(b, a)
    {
      StrLeTotal(CreatedAt(a), CreatedAt(b));
    }
    forall a: Record, b: Record, c: Record | NewerFirst(a, b) && NewerFirst(b, c)
      ensures NewerFirst(a, c)
    {
      StrLeTransitive(CreatedAt(c), CreatedAt(b), CreatedAt(a));
    }
  }

  /** The records listed newest first. */
  function Newest(s: seq<Record>): (r: seq<Record>)
    ensures multiset(r) == multiset(s)
    ensures SortedBy(NewerFirst, r)
  {
    NewerFirstIsTotal();
    SortBySorted(NewerFirst, s);
    SortBy(NewerFirst, s)
  }

  /** The `full_name` text of a record. */
  function FullName(r: Record): string
  {
    if Get(r, "full_name").Str? then Get(r, "full_name").s else ""
  }

  /** The order of `(a, b) => a.full_name.localeCompare(b.full_name)`, by character codes. */
  predicate ByFullName(a: Record, b: Record)
  {
    StrLe(FullName(a), FullName(b))
  }

  lemma ByFullNameIsTotal()
    ensures TotalPreorder(ByFullName)
  {
    forall a: Record, b: Record
      ensures ByFullName(a, b) || ByFullName(b, a)
    {
      StrLeTotal(FullName(a), FullName(b));
    }
    forall a: Record, b: Record, c: Record | ByFullName(a, b) && ByFullName(b, c)
      ensures ByFullName(a, c)
    {
      StrLeTransitive(FullName(a), FullName(b), FullName(c));
    }
  }

  /** The records in alphabetical order of `full_name`. */
  function Alphabetical(s: seq<Record>): (r: seq<Record>)
    ensures multiset(r) == multiset(s)
    ensures SortedBy(ByFullName, r)
  {
    ByFullNameIsTotal();
    SortBySorted(ByFullName, s);
    SortBy(ByFullName, s)
  }
}
