/** The parsed JSON tree of one JL line, and the few `JsonNode` accessors and
    coercions the importer uses.  Parsing itself is an oracle of the importer
    (see Pipeline.Env). */
module Json {
  import opened Wrappers

  /** A JSON value as Jackson holds it: integral and floating numbers are
      different node kinds; an object keeps its members in document order. */
  datatype Json =
    | JNull
    | JBool(b: bool)
    | JInt(i: int)
    | JDouble(d: real)
    | JStr(s: string)
    | JArr(items: seq<Json>)
    | JObj(members: seq<(string, Json)>)

  /** The value bound to `key`: the first member with that name, if any. */
  function Lookup(members: seq<(string, Json)>, key: string): (r: Option<Json>)
    ensures r.None? <==> forall i :: 0 <= i < |members| ==> members[i].0 != key
    ensures r.Some? ==> exists i :: 0 <= i < |members| && members[i] == (key, r.value)
  {
    if members == [] then None
    else if members[0].0 == key then Some(members[0].1)
    else
      var r := Lookup(members[1..], key);
      assert forall i :: 1 <= i < |members| ==> members[i] == members[1..][i - 1];
      r
  }

  /** `node.get(key)`: the member's value, or Java null when the node is not
      an object or has no such member. */
  function Get(node: Json, key: string): Option<Json>
  {
    if node.JObj? then Lookup(node.members, key) else None
  }

  /** `node.has(key)`: the member exists, possibly with a JSON null value. */
  predicate Has(node: Json, key: string)
  {
    Get(node, key).Some?
  }

  /** `node.hasNonNull(key)`: the member exists and is not JSON null. */
  predicate HasNonNull(node: Json, key: string)
  {
    Get(node, key).Some? && Get(node, key).value != JNull
  }

  /** The members without any member named `key`. */
  function Without(members: seq<(string, Json)>, key: string): seq<(string, Json)>
    decreases |members|
  {
    if members == [] then []
    else if members[0].0 == key then Without(members[1..], key)
    else [members[0]] + Without(members[1..], key)
  }

  /** Dropping the members named `key` makes `key` absent and leaves every
      other name bound as before. */
  lemma {:induction false} LookupWithout(members: seq<(string, Json)>, key: string, k: string)
    ensures Lookup(Without(members, key), k) == if k == key then None else Lookup(members, k)
    decreases |members|
  {
    if members != [] {
      LookupWithout(members[1..], key, k);
      if members[0].0 != key {
        var w := [members[0]] + Without(members[1..], key);
        assert w[1..] == Without(members[1..], key);
      }
    }
  }

  /** The names of an object's members in document order (`fieldNames()`);
      empty for any other node. */
  function FieldNames(node: Json): (names: seq<string>)
    ensures node.JObj? ==> |names| == |node.members|
    ensures forall k :: 0 <= k < |names| ==> Has(node, names[k])
  {
    if node.JObj? then
      var ms := node.members;
      seq(|ms|, k requires 0 <= k < |ms| => ms[k].0)
    else []
  }

  /** What `for (JsonNode x : node)` visits: an array's elements, an object's
      member values, nothing for a scalar or null. */
  function Elements(node: Json): (xs: seq<Json>)
    ensures node.JArr? ==> xs == node.items
    ensures node.JObj? ==> |xs| == |node.members| && forall k :: 0 <= k < |xs| ==> xs[k] == node.members[k].1
    ensures !node.JArr? && !node.JObj? ==> xs == []
  {
    match node
    case JArr(items) => items
    case JObj(ms) => seq(|ms|, k requires 0 <= k < |ms| => ms[k].1)
    case _ => []
  }

  /** Java's `(long)` cast of a double: truncation toward zero. */
  function TruncateToInt(x: real): (n: int)
    ensures 0.0 <= x ==> n as real <= x < n as real + 1.0
    ensures x < 0.0 ==> n as real - 1.0 < x <= n as real
  {
    if x >= 0.0 then x.Floor else -((-x).Floor)
  }

  /** `asLong()` (and `asInt()`): a number's value (a double truncated), a
      boolean as 1 or 0, and 0 for null and containers.  Jackson parses a
      text that spells a number; that parse is not modelled, and every text
      reads as 0 here. */
  function AsLong(j: Json): int
  {
    match j
    case JInt(i) => i
    case JDouble(d) => TruncateToInt(d)
    case JBool(b) => if b then 1 else 0
    case _ => 0
  }

  /** `asDouble()`: a number's value, a boolean as 1.0 or 0.0, and 0.0 for
      null and containers.  Jackson parses a text that spells a number; that
      parse is not modelled, and every text reads as 0.0 here. */
  function AsDouble(j: Json): real
  {
    match j
    case JInt(i) => i as real
    case JDouble(d) => d
    case JBool(b) => if b then 1.0 else 0.0
    case _ => 0.0
  }

  /** The text without its leading characters at or below the space
      character: a suffix, and only such characters are dropped. */
  function TrimStart(s: string): (t: string)
    ensures |t| <= |s| && t == s[|s| - |t|..]
    ensures t != [] ==> ' ' < t[0]
    ensures forall k :: 0 <= k < |s| - |t| ==> s[k] <= ' '
    decreases |s|
  {
    if s != [] && s[0] <= ' ' then TrimStart(s[1..]) else s
  }

  /** The text without its trailing characters at or below the space
      character: a prefix, and only such characters are dropped. */
  function TrimEnd(s: string): (t: string)
    ensures |t| <= |s| && t == s[..|t|]
    ensures t != [] ==> ' ' < t[|t| - 1]
    ensures forall k :: |t| <= k < |s| ==> s[k] <= ' '
    decreases |s|
  {
    if s != [] && s[|s| - 1] <= ' ' then TrimEnd(s[..|s| - 1]) else s
  }

  /** Java's `String.trim()`: both ends stripped of characters at or below
      the space character. */
  function Trim(s: string): (t: string)
    ensures t != [] ==> ' ' < t[0] && ' ' < t[|t| - 1]
  {
    TrimEnd(TrimStart(s))
  }

  /** `asBoolean()`: a boolean's value, a non-zero integer, a text that reads
      "true" once trimmed; false otherwise (Jackson's default). */
  function AsBoolean(j: Json): bool
  {
    match j
    case JBool(b) => b
    case JInt(i) => i != 0
    case JStr(s) => Trim(s) == "true"
    case _ => false
  }

  /** The value of a text of decimal digits, read most significant first. */
  function DigitsValue(s: string): nat
    requires forall k :: 0 <= k < |s| ==> '0' <= s[k] <= '9'
    decreases |s|
  {
    if s == [] then 0
    else DigitsValue(s[..|s| - 1]) * 10 + (s[|s| - 1] - '0') as nat
  }

  /** Decimal digits of a natural number. */
  function NatText(n: nat): (s: string)
    ensures |s| >= 1
    ensures forall k :: 0 <= k < |s| ==> '0' <= s[k] <= '9'
    decreases n
  {
    var digit := ['0' + (n % 10) as char];
    if n < 10 then digit else NatText(n / 10) + digit
  }

  /** Reading the decimal form of a number gives the number back. */
  lemma {:induction false} NatTextValue(n: nat)
    ensures DigitsValue(NatText(n)) == n
    decreases n
  {
    var s := NatText(n);
    if n >= 10 {
      NatTextValue(n / 10);
      assert s[..|s| - 1] == NatText(n / 10);
    }
  }

  /** `asText()`: a text's value, "true"/"false", "null", an integer's decimal
      form; the empty text for containers (and, here, for doubles). */
  function AsText(j: Json): string
  {
    match j
    case JStr(s) => s
    case JBool(b) => if b then "true" else "false"
    case JNull => "null"
    case JInt(i) => if i < 0 then "-" + NatText(-i) else NatText(i)
    case _ => ""
  }

  /** A member read as an optional text, the `x.hasNonNull(k) ? x.get(k).asText() : null` idiom. */
  function OptText(node: Json, key: string): (r: Option<string>)
    ensures r.Some? <==> HasNonNull(node, key)
  {
    if HasNonNull(node, key) then Some(AsText(Get(node, key).value)) else None
  }

  /** The same idiom with `asInt()`. */
  function OptInt(node: Json, key: string): (r: Option<int>)
    ensures r.Some? <==> HasNonNull(node, key)
  {
    if HasNonNull(node, key) then Some(AsLong(Get(node, key).value)) else None
  }

  /** The same idiom with `asDouble()`. */
  function OptDouble(node: Json, key: string): (r: Option<real>)
    ensures r.Some? <==> HasNonNull(node, key)
  {
    if HasNonNull(node, key) then Some(AsDouble(Get(node, key).value)) else None
  }

  /** The same idiom with `asBoolean()`. */
  function OptBool(node: Json, key: string): (r: Option<bool>)
    ensures r.Some? <==> HasNonNull(node, key)
  {
    if HasNonNull(node, key) then Some(AsBoolean(Get(node, key).value)) else None
  }

  /** `node.get(key)` followed by a call on the result, where `node` itself may
      be Java null: a null on either side throws. */
  function Fetch(node: Option<Json>, key: string): (r: Outcome<Json>)
    ensures r.Ok? <==> node.Some? && Has(node.value, key)
    ensures r.Ok? ==> Get(node.value, key) == Some(r.value)
  {
    if node.None? then Thrown
    else match Get(node.value, key)
      case None => Thrown
      case Some(v) => Ok(v)
  }
}
