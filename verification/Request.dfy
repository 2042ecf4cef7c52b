/**
 * How the configuration form becomes the question-bank request
 * (`buildApiUrl`, index.js:46-64): the amount field goes through
 * JavaScript's `parseInt`, `|| 10` and a clamp to [1, 50]; category,
 * difficulty and type are appended only when a non-empty value was chosen.
 * The request is modelled as its ordered list of query parameters; the
 * URL encoding of that list is not part of this model.
 */
module Request {
  import opened Wrappers

  // ---------------------------------------------------------------------
  // JavaScript `parseInt(string)` with no radix argument
  // ---------------------------------------------------------------------

  /** The characters ECMAScript strips before parsing a number: white space
      (tab, vertical tab, form feed, no-break space, byte-order mark and the
      Unicode space separators) and line terminators. */
  predicate IsJsWhitespace(c: char) {
    c == '\t' || c == '\n' || c == '\U{000B}' || c == '\U{000C}' || c == '\r' ||
    c == ' ' || c == '\U{00A0}' || c == '\U{1680}' ||
    ('\U{2000}' <= c <= '\U{200A}') ||
    c == '\U{2028}' || c == '\U{2029}' || c == '\U{202F}' || c == '\U{205F}' ||
    c == '\U{3000}' || c == '\U{FEFF}'
  }

  /** The input with its leading white space removed. */
  function TrimStart(s: string): string {
    if |s| > 0 && IsJsWhitespace(s[0]) then TrimStart(s[1..]) else s
  }

  /** The value of c as a digit in base 10 or 16, if it is one. */
  function DigitValue(c: char, radix: nat): (d: Option<nat>)
    requires radix == 10 || radix == 16
    ensures d.Some? ==> d.value < radix
  {
    if '0' <= c <= '9' then Some(c as int - '0' as int)
    else if radix == 16 && 'a' <= c <= 'f' then Some(c as int - 'a' as int + 10)
    else if radix == 16 && 'A' <= c <= 'F' then Some(c as int - 'A' as int + 10)
    else None
  }

  /** Length of the longest prefix of s made of digits of the radix. */
  function DigitRun(s: string, radix: nat): (n: nat)
    requires radix == 10 || radix == 16
    ensures n <= |s|
  {
    if |s| > 0 && DigitValue(s[0], radix).Some? then 1 + DigitRun(s[1..], radix) else 0
  }

  /** The number a string of digits denotes, most significant digit first. */
  function DigitsValue(digits: string, radix: nat): nat
    requires radix == 10 || radix == 16
  {
    if digits == [] then 0
    else DigitsValue(digits[..|digits| - 1], radix) * radix + DigitValue(digits[|digits| - 1], radix).GetOr(0)
  }

  /** The string starts with `0x` or `0X`. */
  predicate HexPrefix(s: string) {
    |s| >= 2 && s[0] == '0' && (s[1] == 'x' || s[1] == 'X')
  }

  /** The number after the sign: an optional `0x`/`0X` prefix selects base
      16, then the longest run of digits is read and the rest ignored. */
  function ParseUnsigned(s: string): (r: Option<nat>)
  {
    var hex := HexPrefix(s);
    var radix := if hex then 16 else 10;
    var body := if hex then s[2..] else s;
    var n := DigitRun(body, radix);
    if n == 0 then None else Some(DigitsValue(body[..n], radix))
  }

  /**
   * `parseInt(text)`: skip leading white space, read an optional sign, then
   * the unsigned number.  None stands for NaN, the result when no digit
   * follows.
   */
  function ParseInt(text: string): (r: Option<int>)
  {
    var s := TrimStart(text);
    if |s| > 0 && s[0] == '-' then
      match ParseUnsigned(s[1..])
      case None => None
      case Some(v) => Some(-(v as int))
    else if |s| > 0 && s[0] == '+' then
      match ParseUnsigned(s[1..])
      case None => None
      case Some(v) => Some(v)
    else
      match ParseUnsigned(s)
      case None => None
      case Some(v) => Some(v)
  }

  // ---------------------------------------------------------------------
  // Decimal rendering of numbers (what `URLSearchParams` writes for a number)
  // ---------------------------------------------------------------------

  function DigitChar(d: nat): (c: char)
    requires d < 10
    ensures DigitValue(c, 10) == Some(d)
  {
    ['0', '1', '2', '3', '4', '5', '6', '7', '8', '9'][d]
  }

  /** The decimal digits of n, without leading zeros. */
  function DecimalString(n: nat): (s: string)
    ensures |s| > 0
    ensures forall k :: 0 <= k < |s| ==> DigitValue(s[k], 10).Some?
  {
    if n < 10 then [DigitChar(n)] else DecimalString(n / 10) + [DigitChar(n % 10)]
  }

  /** How a JavaScript integer is written as a string. */
  function IntString(n: int): string {
    if n < 0 then "-" + DecimalString(-n) else DecimalString(n)
  }

  /** Reading back the decimal digits of n gives n. */
  lemma {:induction false} DecimalStringValue(n: nat)
    ensures DigitsValue(DecimalString(n), 10) == n
  {
    var s := DecimalString(n);
    if n >= 10 {
      assert s[..|s| - 1] == DecimalString(n / 10);
      DecimalStringValue(n / 10);
    }
  }

  /** The unsigned reader returns n for the digits of n followed by any
      non-digit tail, unless "0" is followed by "x" or "X". */
  lemma ParseUnsignedDecimal(n: nat, rest: string)
    requires rest == [] || DigitValue(rest[0], 10).None?
    requires n == 0 && rest != [] ==> rest[0] != 'x' && rest[0] != 'X'
    ensures ParseUnsigned(DecimalString(n) + rest) == Some(n)
  {
    var d := DecimalString(n);
    var s := d + rest;
    assert !HexPrefix(s) by {
      if |d| >= 2 {
        assert s[1] == d[1];
        assert DigitValue(d[1], 10).Some?;
      } else {
        assert n < 10 && s[0] == d[0] == DigitChar(n);
        assert DigitValue(d[0], 10) == Some(n);
      }
    }
    DigitRunStops(d, rest);
    assert s[..|d|] == d;
    DecimalStringValue(n);
  }

  /**
   * parseInt reads the leading number of a string and ignores whatever
   * follows its digits ("12abc" is 12, "3.9" is 3), except that "0"
   * followed by "x" or "X" is a hexadecimal prefix, not the number 0.
   */
  lemma ParseIntIgnoresTail(n: int, rest: string)
    requires rest == [] || DigitValue(rest[0], 10).None?
    requires n == 0 && rest != [] ==> rest[0] != 'x' && rest[0] != 'X'
    ensures ParseInt(IntString(n) + rest) == Some(n)
  {
    var m: nat := if n < 0 then -n else n;
    var tail := DecimalString(m) + rest;
    ParseUnsignedDecimal(m, rest);
    if n < 0 {
      ParseIntOfSigned(tail);
      assert IntString(n) + rest == ['-'] + tail;
    } else {
      assert tail[0] == DecimalString(m)[0];
      ParseIntOfUnsigned(tail);
      assert IntString(n) + rest == tail;
    }
  }

  /** A leading minus sign negates the number read after it. */
  lemma ParseIntOfSigned(s: string)
    ensures ParseInt(['-'] + s) == match ParseUnsigned(s) case None => None case Some(v) => Some(-(v as int))
  {
    var t := ['-'] + s;
    assert t[0] == '-' && t[1..] == s;
    TrimStartNoop(t);
  }

  /** Text starting with a digit is read as an unsigned number. */
  lemma ParseIntOfUnsigned(s: string)
    requires s != [] && '0' <= s[0] <= '9'
    ensures ParseInt(s) == match ParseUnsigned(s) case None => None case Some(v) => Some(v as int)
  {
    TrimStartNoop(s);
  }

  /** Text that starts with a character other than white space is left alone
      by the trimming step. */
  lemma TrimStartNoop(s: string)
    requires s != [] && !IsJsWhitespace(s[0])
    ensures TrimStart(s) == s
  {
  }

  /** parseInt inverts the rendering of an integer as a string. */
  lemma ParseIntOfIntString(n: int)
    ensures ParseInt(IntString(n)) == Some(n)
  {
    ParseIntIgnoresTail(n, []);
    assert IntString(n) + [] == IntString(n);
  }

  /** A string made only of digits is its own digit run. */
  lemma {:induction false} DigitRunAll(s: string)
    requires forall k :: 0 <= k < |s| ==> DigitValue(s[k], 10).Some?
    ensures DigitRun(s, 10) == |s|
  {
    if |s| > 0 {
      DigitRunAll(s[1..]);
    }
  }

  // ---------------------------------------------------------------------
  // The amount parameter (index.js:52-53)
  // ---------------------------------------------------------------------

  /** `Math.max(1, Math.min(n, 50))`. */
  function Clamp(n: int): (r: int)
    ensures 1 <= r <= 50
    ensures 1 <= n <= 50 ==> r == n
    ensures n < 1 ==> r == 1
    ensures n > 50 ==> r == 50
  {
    if n < 1 then 1 else if n > 50 then 50 else n
  }

  /** The text parseInt sees for a form value: a missing field is `null`,
      which converts to the string "null". */
  function FieldText(field: Option<string>): string {
    if field.Some? then field.value else "null"
  }

  /**
   * The amount sent to the service for the form's amount field.  NaN and 0
   * are both falsy, so `|| 10` replaces either by 10; the result is then
   * clamped to [1, 50].
   */
  function RequestedAmount(field: Option<string>): (amount: int)
    ensures 1 <= amount <= 50
  {
    var n := match ParseInt(FieldText(field))
      case None => 10
      case Some(v) => if v == 0 then 10 else v;
    Clamp(n)
  }

  /** For a number typed into the field: 0 becomes 10, values below 1 become
      1, values above 50 become 50, and 1..50 are kept. */
  lemma AmountOfTypedNumber(n: int)
    ensures RequestedAmount(Some(IntString(n))) ==
            if n == 0 then 10 else if n < 1 then 1 else if n > 50 then 50 else n
  {
    ParseIntOfIntString(n);
  }

  /** Text that does not start (after white space) with a sign or a digit
      is NaN to parseInt. */
  lemma ParseIntNoNumber(text: string)
    requires text == [] || (!IsJsWhitespace(text[0]) && text[0] != '-' && text[0] != '+'
                            && DigitValue(text[0], 10).None?)
    ensures ParseInt(text) == None
  {
    assert TrimStart(text) == text;
  }

  /** A form without an amount field: `formData.get` gives null, which
      parseInt reads as the text "null", which is NaN, so the default 10 is
      requested. */
  lemma AmountOfMissingField()
    ensures RequestedAmount(None) == 10
  {
  }

  /** An empty amount field is NaN to parseInt, so the default 10 is requested. */
  lemma AmountOfEmptyField()
    ensures RequestedAmount(Some("")) == 10
  {
  }

  /** Any text parseInt cannot read falls back to the default 10. */
  lemma AmountOfUnreadableText(text: string)
    requires ParseInt(text) == None
    ensures RequestedAmount(Some(text)) == 10
  {
  }

  /** The digit run of digits followed by a non-digit ends at the non-digit. */
  lemma {:induction false} DigitRunStops(digits: string, rest: string)
    requires forall k :: 0 <= k < |digits| ==> DigitValue(digits[k], 10).Some?
    requires rest == [] || DigitValue(rest[0], 10).None?
    ensures DigitRun(digits + rest, 10) == |digits|
  {
    if |digits| > 0 {
      assert (digits + rest)[1..] == digits[1..] + rest;
      DigitRunStops(digits[1..], rest);
    }
  }

  // ---------------------------------------------------------------------
  // The query parameters (index.js:49-61)
  // ---------------------------------------------------------------------

  /** The keys `buildApiUrl` may append, in the order it appends them; on the
      wire they are `amount`, `category`, `difficulty` and `type`. */
  datatype Key = Amount | Category | Difficulty | Type

  /** Position of a key in the order `buildApiUrl` appends keys. */
  function KeyRank(key: Key): nat {
    match key
    case Amount => 0
    case Category => 1
    case Difficulty => 2
    case Type => 3
  }

  /** One appended query parameter. */
  datatype Param = Param(key: Key, value: string)

  /** What `formData.get` returns for the four fields of the configuration
      form; None is `null`, a field the form does not have. */
  datatype ConfigForm = ConfigForm(
    amount: Option<string>,
    category: Option<string>,
    difficulty: Option<string>,
    questionType: Option<string>)

  /** The value of a form field when JavaScript treats it as truthy
      (present and not ""), otherwise None. */
  function Selected(field: Option<string>): (r: Option<string>)
    ensures r.Some? <==> field.Some? && field.value != ""
    ensures r.Some? ==> r == field
  {
    if field.Some? && field.value != "" then field else None
  }

  /** The parameter appended for one optional field, if any (index.js:57-60). */
  function OptionalParam(key: Key, field: Option<string>): seq<Param> {
    if Selected(field).Some? then [Param(key, field.value)] else []
  }

  /** The value of the first parameter with the given key (URLSearchParams.get). */
  function Lookup(params: seq<Param>, key: Key): Option<string> {
    if params == [] then None
    else if params[0].key == key then Some(params[0].value)
    else Lookup(params[1..], key)
  }

  /** The query parameters `buildApiUrl` appends, in order. */
  function BuildParams(form: ConfigForm): seq<Param> {
    [Param(Amount, IntString(RequestedAmount(form.amount)))]
      + OptionalParam(Category, form.category)
      + OptionalParam(Difficulty, form.difficulty)
      + OptionalParam(Type, form.questionType)
  }

  /** The first parameter is the amount, which the service reads back as the
      clamped number in [1, 50]. */
  lemma BuildParamsAmount(form: ConfigForm)
    ensures var params := BuildParams(form);
      && |params| >= 1
      && params[0].key == Amount
      && ParseInt(params[0].value) == Some(RequestedAmount(form.amount))
      && 1 <= RequestedAmount(form.amount) <= 50
  {
    ParseIntOfIntString(RequestedAmount(form.amount));
  }

  /** Looking a key up in two lists appended: the first list wins. */
  lemma {:induction false} LookupAppend(a: seq<Param>, b: seq<Param>, key: Key)
    ensures Lookup(a + b, key) == if Lookup(a, key).Some? then Lookup(a, key) else Lookup(b, key)
  {
    if a != [] {
      assert (a + b)[0] == a[0];
      assert (a + b)[1..] == a[1..] + b;
      LookupAppend(a[1..], b, key);
    } else {
      assert a + b == b;
    }
  }

  /** The parameter list of one optional field holds only that field's key. */
  lemma LookupOptional(fieldKey: Key, field: Option<string>, key: Key)
    ensures Lookup(OptionalParam(fieldKey, field), key) ==
            if fieldKey == key then Selected(field) else None
  {
  }

  /** The form field that supplies an optional key. */
  function FieldFor(form: ConfigForm, key: Key): Option<string> {
    match key
    case Amount => form.amount
    case Category => form.category
    case Difficulty => form.difficulty
    case Type => form.questionType
  }

  /** Category, difficulty and type are present exactly when their field was
      chosen, and then carry the chosen value. */
  lemma BuildParamsOptional(form: ConfigForm, key: Key)
    requires key != Amount
    ensures Lookup(BuildParams(form), key) == Selected(FieldFor(form, key))
  {
    var am := [Param(Amount, IntString(RequestedAmount(form.amount)))];
    var c := OptionalParam(Category, form.category);
    var d := OptionalParam(Difficulty, form.difficulty);
    var t := OptionalParam(Type, form.questionType);
    assert BuildParams(form) == am + (c + (d + t));
    LookupAppend(am, c + (d + t), key);
    LookupAppend(c, d + t, key);
    LookupAppend(d, t, key);
    LookupOptional(Category, form.category, key);
    LookupOptional(Difficulty, form.difficulty, key);
    LookupOptional(Type, form.questionType, key);
  }

  /** Keys appear once each, in the fixed order amount, category,
      difficulty, type. */
  lemma BuildParamsOrder(form: ConfigForm)
    ensures var params := BuildParams(form);
      forall a, b :: 0 <= a < b < |params| ==> KeyRank(params[a].key) < KeyRank(params[b].key)
  {
    var params := BuildParams(form);
    var c := OptionalParam(Category, form.category);
    var d := OptionalParam(Difficulty, form.difficulty);
    var t := OptionalParam(Type, form.questionType);
    assert params[0].key == Amount;
    assert |c| <= 1 && |d| <= 1 && |t| <= 1;
    assert forall k :: 1 <= k < 1 + |c| ==> params[k].key == Category;
    assert forall k :: 1 + |c| <= k < 1 + |c| + |d| ==> params[k].key == Difficulty;
    assert forall k :: 1 + |c| + |d| <= k < |params| ==> params[k].key == Type;
  }
}
