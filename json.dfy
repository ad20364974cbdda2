/** Decoded JSON values, as `JSON.parse` hands them to the dictionary parsers,
    and the JavaScript coercion `Number(x)` that the variable parser applies to
    the `id` field. */
module Json {
  import opened Wrappers
  import opened Text

  /** A JSON value. Numbers are integers; an object is the map that
      `JSON.parse` builds (a repeated key keeps its last value). */
  datatype JsonValue =
    | JNull
    | JBool(b: bool)
    | JNumber(n: int)
    | JString(s: string)
    | JArray(items: seq<JsonValue>)
    | JObject(fields: map<string, JsonValue>)

  /** What `JSON.parse` does with a file's text: throw, or return a value. */
  datatype Decoded = InvalidJson | ValidJson(value: JsonValue)

  /** A JavaScript number as far as this model needs one. */
  datatype Number = Finite(value: int) | NaN

  /** `(v as any)[key]`: `undefined` (None) unless `v` is an object holding
      that key. Arrays, strings, numbers and null have none of the keys the
      parsers ask for. */
  function Member(v: JsonValue, key: string): Option<JsonValue> {
    if v.JObject? && key in v.fields then Some(v.fields[key]) else None
  }

  predicate IsDigit(c: char) {
    '0' <= c <= '9'
  }

  function DigitsValue(s: string): nat
    requires AllChars(s, IsDigit)
  {
    if s == [] then 0
    else 10 * DigitsValue(s[..|s| - 1]) + (s[|s| - 1] as int - '0' as int)
  }

  /** `Number(s)` for a string: the empty string is 0, a run of decimal
      digits is its value, any other text is NaN. */
  function StringToNumber(s: string): Number {
    if AllChars(s, IsDigit) then Finite(DigitsValue(s)) else NaN
  }

  /** `Number(v)` for a JSON value. An array converts through its string
      form: `[]` is 0, a one-element array converts like its element (whose
      string form for `null` is the empty string, hence 0), and a boolean or
      object element, or two or more elements, give NaN. */
  function ValueToNumber(v: JsonValue): Number {
    match v
    case JNull => Finite(0)
    case JBool(b) => Finite(if b then 1 else 0)
    case JNumber(n) => Finite(n)
    case JString(s) => StringToNumber(s)
    case JObject(_) => NaN
    case JArray(items) =>
      if |items| == 0 then Finite(0)
      else if |items| == 1 then
        (if items[0].JBool? || items[0].JObject? then NaN else ValueToNumber(items[0]))
      else NaN
  }

  /** How `Array.prototype.join` writes one element: `null` as the empty
      string, a boolean or an integer as its text, a string as itself, a
      nested array as its elements joined by ",", and an object as
      "[object Object]". */
  function JoinText(v: JsonValue): string
    decreases v
  {
    match v
    case JNull => ""
    case JBool(b) => if b then "true" else "false"
    case JNumber(n) => IntToString(n)
    case JString(s) => s
    case JArray(items) => Join(JoinTexts(items), ",")
    case JObject(_) => "[object Object]"
  }

  /** The texts `join` writes for the elements, in order. */
  function JoinTexts(items: seq<JsonValue>): (r: seq<string>)
    ensures |r| == |items|
    ensures forall k :: 0 <= k < |items| ==> r[k] == JoinText(items[k])
    decreases items
  {
    if items == [] then [] else [JoinText(items[0])] + JoinTexts(items[1..])
  }

  /** `Number(x)` where `x` may be `undefined`, which gives NaN. */
  function ToNumber(v: Option<JsonValue>): Number {
    match v
    case None => NaN
    case Some(x) => ValueToNumber(x)
  }

  lemma DigitCharValue(d: nat)
    requires d < 10
    ensures IsDigit(DigitChar(d)) && DigitChar(d) as int - '0' as int == d
  {
    if d == 0 { assert DigitChar(d) == '0'; }
    else if d == 1 { assert DigitChar(d) == '1'; }
    else if d == 2 { assert DigitChar(d) == '2'; }
    else if d == 3 { assert DigitChar(d) == '3'; }
    else if d == 4 { assert DigitChar(d) == '4'; }
    else if d == 5 { assert DigitChar(d) == '5'; }
    else if d == 6 { assert DigitChar(d) == '6'; }
    else if d == 7 { assert DigitChar(d) == '7'; }
    else if d == 8 { assert DigitChar(d) == '8'; }
    else { assert DigitChar(d) == '9'; }
  }

  /** Reading back the decimal text of a natural number gives the number:
      `Number(String(n)) == n`. */
  lemma {:induction false} DecimalRoundTrip(n: nat)
    ensures AllChars(NatToString(n), IsDigit)
    ensures StringToNumber(NatToString(n)) == Finite(n)
    decreases n
  {
    var s := NatToString(n);
    DigitCharValue(n % 10);
    if n < 10 {
      assert s == [DigitChar(n)];
      assert s[..0] == [];
      assert AllChars(s, IsDigit);
      assert DigitsValue(s) == 10 * DigitsValue(s[..0]) + (s[0] as int - '0' as int);
    } else {
      DecimalRoundTrip(n / 10);
      assert s[..|s| - 1] == NatToString(n / 10);
      assert s[|s| - 1] == DigitChar(n % 10);
    }
  }

  /** `Number(x)` on the shapes an `id` field can take: a number is itself, a
      missing field is NaN, `null` and the empty string are 0, a boolean is 0
      or 1, the decimal text of a natural number is that number, and an array
      of one number is that number. */
  lemma ToNumberCases(n: nat, i: int)
    ensures ToNumber(Some(JNumber(i))) == Finite(i)
    ensures ToNumber(None) == NaN
    ensures ToNumber(Some(JNull)) == Finite(0)
    ensures ToNumber(Some(JString(""))) == Finite(0)
    ensures ToNumber(Some(JBool(true))) == Finite(1)
    ensures ToNumber(Some(JString(NatToString(n)))) == Finite(n)
    ensures ToNumber(Some(JArray([JNumber(i)]))) == Finite(i)
    ensures ToNumber(Some(JObject(map[]))) == NaN
  {
    DecimalRoundTrip(n);
  }
}
