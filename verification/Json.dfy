/** JSON as trees; their text is left to a codec. */
module Json {
  import opened Lines

  datatype Option<+T> = None | Some(value: T)

  datatype Json =
    | Null
    | Bool(b: bool)
    | Integer(n: int)
    | Number(literal: Literal)
    | String(s: string)
    | Array(elements: seq<Json>)
    | Object(fields: map<string, Json>)

  // Numbers, as section 6 of RFC 8259 writes them

  predicate StartsWithDigit(s: string) {
    s != "" && '0' <= s[0] <= '9'
  }

  function SkipDigits(s: string): (r: string)
    ensures |r| <= |s|
  {
    if StartsWithDigit(s) then SkipDigits(s[1..]) else s
  }

  predicate IsExponent(s: string) {
    s == ""
    || (s[0] in "eE" && var t := if |s| > 1 && s[1] in "+-" then s[2..] else s[1..];
        StartsWithDigit(t) && SkipDigits(t) == "")
  }

  predicate IsFraction(s: string) {
    if s != "" && s[0] == '.' then StartsWithDigit(s[1..]) && IsExponent(SkipDigits(s[1..])) else IsExponent(s)
  }

  /** No leading zeros. */
  predicate IsUnsigned(s: string) {
    StartsWithDigit(s) && IsFraction(if s[0] == '0' then s[1..] else SkipDigits(s))
  }

  predicate IsNumber(s: string) {
    IsUnsigned(if s != "" && s[0] == '-' then s[1..] else s)
  }

  /** The text of a number that is not that of an integer. */
  type Literal = s: string | IsNumber(s) && (s == "-0" || '.' in s || 'e' in s || 'E' in s) witness "-0"

  /** `json.Marshal` and `json.Unmarshal`, as far as trees see them. */
  datatype Codec = Codec(marshal: Json -> Bytes, unmarshal: Bytes -> Option<Json>)

  /** Printed values parse back, stand on one line and do not end in a carriage return. */
  ghost predicate Lawful(codec: Codec) {
    && (forall j :: codec.unmarshal(codec.marshal(j)) == Some(j))
    && (forall j :: LfFree(codec.marshal(j)) && !EndsWithCr(codec.marshal(j)))
    && codec.unmarshal([]) == None
  }

  predicate EndsWithCr(s: Bytes) {
    |s| > 0 && s[|s| - 1] == CR
  }

  /** Decoding into a `map[string]json.RawMessage`: `null` gives an empty map, other values fail. */
  function AsMap(j: Json): Option<map<string, Json>> {
    match j
    case Object(fields) => Some(fields)
    case Null => Some(map[])
    case _ => None
  }

  /** Decoding into a slice of such maps: it fails as soon as one element does. */
  function AsMaps(j: Json): Option<seq<map<string, Json>>> {
    match j
    case Array(elements) => ElementsAsMaps(elements)
    case Null => Some([])
    case _ => None
  }

  function ElementsAsMaps(elements: seq<Json>): Option<seq<map<string, Json>>> {
    if elements == [] then Some([])
    else match (AsMap(elements[0]), ElementsAsMaps(elements[1..]))
      case (Some(first), Some(rest)) => Some([first] + rest)
      case _ => None
  }

  function StringField(j: Option<Json>, key: string): string {
    if j.Some? && j.value.Object? && key in j.value.fields && j.value.fields[key].String?
    then j.value.fields[key].s else ""
  }
}
