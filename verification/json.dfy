/**
 * The JSON encoder of the mock server: `escapeJson`, `toJson(Map)` and
 * `toJson(List)`, together with a reader for exactly the text they produce,
 * so that the encoder can be stated by its round trip.
 */
module Json {
  import opened Wrappers
  import opened JavaLang

  /** A field value of a task record: the store holds `Integer`s and `String`s; `toJson` also writes `null`. */
  datatype Value = Num(n: int) | Str(s: string) | Null

  /** A task record: the string-keyed map the Java code builds. */
  type Object = map<string, Value>

  /** A parsed object: its members in the order they were written. */
  type Entries = seq<(string, Value)>

  // ---------------------------------------------------------------------------
  // escapeJson
  // ---------------------------------------------------------------------------

  /**
   * `escapeJson`: five replacements applied one after the other, backslash
   * first, then the double quote, newline, carriage return and tab.
   */
  function EscapeJson(s: string): string
  {
    ReplaceChar(ReplaceChar(ReplaceChar(ReplaceChar(ReplaceChar(
      s, '\\', "\\\\"), '"', "\\\""), '\n', "\\n"), '\r', "\\r"), '\t', "\\t")
  }

  /** The escape of one character on its own. */
  function EscapeChar(c: char): string
  {
    if c == '\\' then "\\\\"
    else if c == '"' then "\\\""
    else if c == '\n' then "\\n"
    else if c == '\r' then "\\r"
    else if c == '\t' then "\\t"
    else [c]
  }

  /** Reference definition: escape every character independently, in a single pass. */
  function EscapeEach(s: string): string
  {
    if s == [] then [] else EscapeChar(s[0]) + EscapeEach(s[1..])
  }

  lemma EscapeJsonAppend(a: string, b: string)
    ensures EscapeJson(a + b) == EscapeJson(a) + EscapeJson(b)
  {
    var a1, b1 := ReplaceChar(a, '\\', "\\\\"), ReplaceChar(b, '\\', "\\\\");
    ReplaceCharAppend(a, b, '\\', "\\\\");
    var a2, b2 := ReplaceChar(a1, '"', "\\\""), ReplaceChar(b1, '"', "\\\"");
    ReplaceCharAppend(a1, b1, '"', "\\\"");
    var a3, b3 := ReplaceChar(a2, '\n', "\\n"), ReplaceChar(b2, '\n', "\\n");
    ReplaceCharAppend(a2, b2, '\n', "\\n");
    var a4, b4 := ReplaceChar(a3, '\r', "\\r"), ReplaceChar(b3, '\r', "\\r");
    ReplaceCharAppend(a3, b3, '\r', "\\r");
    ReplaceCharAppend(a4, b4, '\t', "\\t");
  }

  lemma ReplaceCharSingle(d: char, c: char, rep: string)
    ensures ReplaceChar([d], c, rep) == if d == c then rep else [d]
  {
    assert [d][1..] == [];
  }

  lemma EscapeJsonBackslash()
    ensures EscapeJson("\\") == EscapeChar('\\')
  {
    ReplaceCharSingle('\\', '\\', "\\\\");
  }

  lemma EscapeJsonOther(c: char)
    requires c != '\\'
    ensures EscapeJson([c]) == EscapeChar(c)
  {
    ReplaceCharSingle(c, '\\', "\\\\");
    ReplaceCharSingle(c, '"', "\\\"");
    ReplaceCharSingle(c, '\n', "\\n");
    ReplaceCharSingle(c, '\r', "\\r");
    ReplaceCharSingle(c, '\t', "\\t");
  }

  lemma EscapeJsonChar(c: char)
    ensures EscapeJson([c]) == EscapeChar(c)
  {
    if c == '\\' {
      EscapeJsonBackslash();
    } else {
      EscapeJsonOther(c);
    }
  }

  /**
   * The five sequential replacements escape every character independently:
   * because the backslash is replaced first, no backslash a later step
   * inserts is escaped again.
   */
  lemma {:induction false} EscapeJsonIsEscapeEach(s: string)
    ensures EscapeJson(s) == EscapeEach(s)
  {
    if s != [] {
      assert s == [s[0]] + s[1..];
      EscapeJsonAppend([s[0]], s[1..]);
      EscapeJsonChar(s[0]);
      EscapeJsonIsEscapeEach(s[1..]);
    }
  }

  lemma {:induction false} EscapeEachNoRawControl(s: string)
    ensures '\n' !in EscapeEach(s) && '\r' !in EscapeEach(s) && '\t' !in EscapeEach(s)
  {
    if s != [] {
      EscapeEachNoRawControl(s[1..]);
    }
  }

  /** The output of `escapeJson` holds no raw newline, carriage return or tab. */
  lemma EscapeJsonNoRawControl(s: string)
    ensures '\n' !in EscapeJson(s) && '\r' !in EscapeJson(s) && '\t' !in EscapeJson(s)
  {
    EscapeJsonIsEscapeEach(s);
    EscapeEachNoRawControl(s);
  }

  /** Only five characters are escaped: any other character, control characters included, is copied as it is. */
  lemma EscapeJsonKeepsOtherCharacters(s: string)
    requires '\\' !in s && '"' !in s && '\n' !in s && '\r' !in s && '\t' !in s
    ensures EscapeJson(s) == s
  {
  }

  /** The escapes the reader below understands: exactly the five `escapeJson` writes. */
  predicate IsEscapeCode(c: char)
  {
    c == '\\' || c == '"' || c == 'n' || c == 'r' || c == 't'
  }

  function Unescaped(code: char): (c: char)
    requires IsEscapeCode(code)
    ensures EscapeChar(c) == ['\\', code]
  {
    if code == 'n' then '\n' else if code == 'r' then '\r' else if code == 't' then '\t' else code
  }

  /**
   * Reads the body of a string literal up to its closing quote, decoding the
   * five escapes; yields the text and what follows the closing quote.
   */
  function ParseString(s: string): (r: Option<(string, string)>)
    ensures r.Some? ==> |r.value.1| < |s|
    decreases |s|
  {
    if s == [] then None
    else if s[0] == '"' then Some(([], s[1..]))
    else if s[0] == '\\' then
      if |s| < 2 || !IsEscapeCode(s[1]) then None
      else match ParseString(s[2..])
        case None => None
        case Some((text, rest)) => Some(([Unescaped(s[1])] + text, rest))
    else match ParseString(s[1..])
      case None => None
      case Some((text, rest)) => Some(([s[0]] + text, rest))
  }

  lemma {:induction false} ParseStringOfEscapeEach(s: string, rest: string)
    ensures ParseString(EscapeEach(s) + "\"" + rest) == Some((s, rest))
  {
    var input := EscapeEach(s) + "\"" + rest;
    if s == [] {
      assert input == "\"" + rest;
      assert input[1..] == rest;
    } else {
      var c, tail := s[0], EscapeEach(s[1..]) + "\"" + rest;
      assert s == [c] + s[1..];
      assert input == EscapeChar(c) + tail;
      ParseStringOfEscapeEach(s[1..], rest);
      if c == '\\' || c == '"' || c == '\n' || c == '\r' || c == '\t' {
        var code := EscapeChar(c)[1];
        assert EscapeChar(c) == ['\\', code];
        assert input[0] == '\\' && input[1] == code;
        assert IsEscapeCode(code) && Unescaped(code) == c;
        assert input[2..] == tail;
      } else {
        assert EscapeChar(c) == [c];
        assert input[0] == c;
        assert input[1..] == tail;
      }
    }
  }

  /** Decoding the escapes of `escapeJson`'s output recovers its input exactly, and the closing quote is found right after it. */
  lemma ParseStringOfEscapeJson(s: string, rest: string)
    ensures ParseString(EscapeJson(s) + "\"" + rest) == Some((s, rest))
  {
    EscapeJsonIsEscapeEach(s);
    ParseStringOfEscapeEach(s, rest);
  }

  // ---------------------------------------------------------------------------
  // Regrouping concatenations (stated on plain strings, so that the proofs
  // below need not rediscover them next to the encoder's definitions)
  // ---------------------------------------------------------------------------

  lemma Regroup3(a: string, b: string, c: string)
    ensures a + b + c == a + (b + c)
  {
  }

  lemma Regroup5(a: string, b: string, c: string, d: string, e: string)
    ensures a + b + c + d + e == a + (b + (c + d + e))
  {
  }

  lemma RegroupSeparated(a: string, sep: string, b: string, c: string)
    ensures a + sep + (b + sep + c) == a + sep + b + sep + c
  {
  }

  /** What is left of a text after its first character, for a text built from a one-character opening. */
  lemma AfterOpening(open: string, a: string, b: string, c: string)
    requires |open| == 1
    ensures (open + a + b + c)[0] == open[0]
    ensures (open + a + b + c)[1..] == a + b + c
  {
  }

  lemma AfterFirst(first: string, a: string)
    requires |first| == 1
    ensures (first + a)[0] == first[0] && (first + a)[1..] == a
  {
  }

  // ---------------------------------------------------------------------------
  // toJson(Map) and toJson(List)
  // ---------------------------------------------------------------------------

  /** A value as `toJson` writes it: `null`, a bare number, or a quoted escaped string. */
  function ValueToJson(v: Value): string
  {
    match v
    case Null => "null"
    case Num(n) => IntToString(n)
    case Str(s) => "\"" + EscapeJson(s) + "\""
  }

  /** One member: the key in quotes, written as it is (not escaped), a colon, the value. */
  function MemberToJson(key: string, v: Value): string
  {
    "\"" + key + "\":" + ValueToJson(v)
  }

  /**
   * The order in which the map's entry set is visited: every key exactly
   * once. The hash map's iteration order is not specified, so it is a parameter.
   */
  predicate EnumeratesKeys(keys: seq<string>, t: Object)
  {
    && (forall i, j :: 0 <= i < j < |keys| ==> keys[i] != keys[j])
    && (forall k :: k in keys ==> k in t)
    && (forall k :: k in t ==> k in keys)
  }

  /** The members in the given order, separated by commas. */
  function MembersToJson(t: Object, keys: seq<string>): string
    requires forall k :: k in keys ==> k in t
  {
    if keys == [] then ""
    else if |keys| == 1 then MemberToJson(keys[0], t[keys[0]])
    else MemberToJson(keys[0], t[keys[0]]) + "," + MembersToJson(t, keys[1..])
  }

  /** `toJson(Map)`: braces around the comma-separated members. */
  function ObjectToJson(t: Object, keys: seq<string>): (r: string)
    requires EnumeratesKeys(keys, t)
    ensures t == map[] ==> r == "{}"
    ensures |r| >= 2 && r[0] == '{' && r[|r| - 1] == '}'
  {
    assert keys != [] ==> keys[0] in t;
    "{" + MembersToJson(t, keys) + "}"
  }

  /** One key order per element of the list. */
  predicate EnumeratesAll(ts: seq<Object>, orders: seq<seq<string>>)
  {
    |orders| == |ts| && forall i {:trigger EnumeratesKeys(orders[i], ts[i])} :: 0 <= i < |ts| ==> EnumeratesKeys(orders[i], ts[i])
  }

  /** The elements in list order, separated by commas. */
  function ElementsToJson(ts: seq<Object>, orders: seq<seq<string>>): string
    requires EnumeratesAll(ts, orders)
  {
    if ts == [] then ""
    else if |ts| == 1 then ObjectToJson(ts[0], orders[0])
    else ObjectToJson(ts[0], orders[0]) + "," + ElementsToJson(ts[1..], orders[1..])
  }

  /** `toJson(List)`: brackets around the comma-separated objects; the empty list gives `[]`. */
  function ListToJson(ts: seq<Object>, orders: seq<seq<string>>): (r: string)
    requires EnumeratesAll(ts, orders)
    ensures ts == [] ==> r == "[]"
    ensures |r| >= 2 && r[0] == '[' && r[|r| - 1] == ']'
  {
    "[" + ElementsToJson(ts, orders) + "]"
  }

  /** Appending one more key writes a comma (unless it is the first) and its member. */
  lemma {:induction false} MembersToJsonSnoc(t: Object, keys: seq<string>, k: string)
    requires forall key :: key in keys ==> key in t
    requires k in t
    ensures MembersToJson(t, keys + [k]) ==
      (if keys == [] then "" else MembersToJson(t, keys) + ",") + MemberToJson(k, t[k])
  {
    if |keys| > 1 {
      assert (keys + [k])[1..] == keys[1..] + [k];
      assert (keys + [k])[0] == keys[0];
      var head := MemberToJson(keys[0], t[keys[0]]);
      var middle := MembersToJson(t, keys[1..]);
      MembersToJsonSnoc(t, keys[1..], k);
      assert MembersToJson(t, keys + [k]) == head + "," + (middle + "," + MemberToJson(k, t[k]));
      assert MembersToJson(t, keys) == head + "," + middle;
      RegroupSeparated(head, ",", middle, MemberToJson(k, t[k]));
    } else if |keys| == 1 {
      assert (keys + [k])[1..] == [k];
    } else {
      assert keys + [k] == [k];
    }
  }

  lemma EnumeratesAllSnoc(ts: seq<Object>, orders: seq<seq<string>>, t: Object, keys: seq<string>)
    requires EnumeratesAll(ts, orders) && EnumeratesKeys(keys, t)
    ensures EnumeratesAll(ts + [t], orders + [keys])
  {
    forall i | 0 <= i < |ts| + 1 ensures EnumeratesKeys((orders + [keys])[i], (ts + [t])[i]) {
      if i < |ts| {
        assert (orders + [keys])[i] == orders[i] && (ts + [t])[i] == ts[i];
      }
    }
  }

  lemma EnumeratesAllRest(ts: seq<Object>, orders: seq<seq<string>>)
    requires |ts| > 0 && EnumeratesAll(ts, orders)
    ensures EnumeratesAll(ts[1..], orders[1..])
  {
    forall i | 0 <= i < |ts| - 1 ensures EnumeratesKeys(orders[1..][i], ts[1..][i]) {
      assert orders[1..][i] == orders[i + 1] && ts[1..][i] == ts[i + 1];
    }
  }

  /** Appending one more object writes a comma (unless it is the first) and the object. */
  lemma {:induction false} ElementsToJsonSnoc(ts: seq<Object>, orders: seq<seq<string>>, t: Object, keys: seq<string>)
    requires EnumeratesAll(ts, orders) && EnumeratesKeys(keys, t)
    ensures EnumeratesAll(ts + [t], orders + [keys])
    ensures ElementsToJson(ts + [t], orders + [keys]) ==
      (if ts == [] then "" else ElementsToJson(ts, orders) + ",") + ObjectToJson(t, keys)
  {
    EnumeratesAllSnoc(ts, orders, t, keys);
    if |ts| > 1 {
      assert (ts + [t])[1..] == ts[1..] + [t];
      assert (orders + [keys])[1..] == orders[1..] + [keys];
      assert (ts + [t])[0] == ts[0] && (orders + [keys])[0] == orders[0];
      EnumeratesAllRest(ts, orders);
      EnumeratesAllRest(ts + [t], orders + [keys]);
      var head := ObjectToJson(ts[0], orders[0]);
      var middle := ElementsToJson(ts[1..], orders[1..]);
      ElementsToJsonSnoc(ts[1..], orders[1..], t, keys);
      assert ElementsToJson(ts + [t], orders + [keys]) == head + "," + (middle + "," + ObjectToJson(t, keys));
      assert ElementsToJson(ts, orders) == head + "," + middle;
      RegroupSeparated(head, ",", middle, ObjectToJson(t, keys));
    } else if |ts| == 1 {
      assert (ts + [t])[1..] == [t];
      assert (orders + [keys])[1..] == [keys];
    } else {
      assert ts + [t] == [t];
      assert orders + [keys] == [keys];
    }
  }

  /** The members of the first `i + 1` keys: those of the first `i`, a comma unless `i` is 0, the next member. */
  lemma MembersPrefixStep(t: Object, keys: seq<string>, i: nat)
    requires forall k :: k in keys ==> k in t
    requires i < |keys|
    ensures MembersToJson(t, keys[..i + 1]) ==
      (if i == 0 then "" else MembersToJson(t, keys[..i]) + ",") + MemberToJson(keys[i], t[keys[i]])
  {
    assert keys[..i + 1] == keys[..i] + [keys[i]];
    MembersToJsonSnoc(t, keys[..i], keys[i]);
  }

  lemma EnumeratesAllPrefix(ts: seq<Object>, orders: seq<seq<string>>, i: nat)
    requires EnumeratesAll(ts, orders) && i <= |ts|
    ensures EnumeratesAll(ts[..i], orders[..i])
  {
    forall j | 0 <= j < i ensures EnumeratesKeys(orders[..i][j], ts[..i][j]) {
      assert orders[..i][j] == orders[j] && ts[..i][j] == ts[j];
    }
  }

  /** The comma-separated encodings of the first `i` objects. */
  function ElementsPrefix(ts: seq<Object>, orders: seq<seq<string>>, i: nat): string
    requires EnumeratesAll(ts, orders) && i <= |ts|
  {
    EnumeratesAllPrefix(ts, orders, i);
    ElementsToJson(ts[..i], orders[..i])
  }

  /** The encodings of the first `i + 1` objects: those of the first `i`, a comma unless `i` is 0, the next object. */
  lemma ElementsPrefixStep(ts: seq<Object>, orders: seq<seq<string>>, i: nat)
    requires EnumeratesAll(ts, orders)
    requires i < |ts|
    ensures EnumeratesKeys(orders[i], ts[i])
    ensures ElementsPrefix(ts, orders, i + 1) ==
      (if i == 0 then "" else ElementsPrefix(ts, orders, i) + ",") + ObjectToJson(ts[i], orders[i])
  {
    assert ts[..i + 1] == ts[..i] + [ts[i]];
    assert orders[..i + 1] == orders[..i] + [orders[i]];
    assert EnumeratesKeys(orders[i], ts[i]);
    EnumeratesAllPrefix(ts, orders, i);
    EnumeratesAllSnoc(ts[..i], orders[..i], ts[i], orders[i]);
    ElementsToJsonSnoc(ts[..i], orders[..i], ts[i], orders[i]);
  }

  lemma ElementsPrefixOfAll(ts: seq<Object>, orders: seq<seq<string>>)
    requires EnumeratesAll(ts, orders)
    ensures ElementsPrefix(ts, orders, |ts|) == ElementsToJson(ts, orders)
  {
    assert ts[..|ts|] == ts && orders[..|ts|] == orders;
  }

  /**
   * `toJson(Map)` as the builder loop writes it: an opening brace, then for
   * each entry in iteration order a comma unless it is the first, the member,
   * and a closing brace.
   */
  method WriteObject(t: Object, keys: seq<string>) returns (r: string)
    requires EnumeratesKeys(keys, t)
    ensures r == ObjectToJson(t, keys)
  {
    var sb := "{";
    var first := true;
    for i := 0 to |keys|
      invariant first <==> i == 0
      invariant sb == "{" + MembersToJson(t, keys[..i])
    {
      if !first {
        sb := sb + ",";
      }
      first := false;
      MembersPrefixStep(t, keys, i);
      sb := sb + MemberToJson(keys[i], t[keys[i]]);
    }
    assert keys[..|keys|] == keys;
    r := sb + "}";
  }

  /** `toJson(List)` as the builder loop writes it: each object through `toJson(Map)`, commas between, brackets around. */
  method WriteList(ts: seq<Object>, orders: seq<seq<string>>) returns (r: string)
    requires EnumeratesAll(ts, orders)
    ensures r == ListToJson(ts, orders)
  {
    var sb := "[";
    var first := true;
    for i := 0 to |ts|
      invariant first <==> i == 0
      invariant sb == "[" + ElementsPrefix(ts, orders, i)
    {
      if !first {
        sb := sb + ",";
      }
      first := false;
      ElementsPrefixStep(ts, orders, i);
      var element := WriteObject(ts[i], orders[i]);
      sb := sb + element;
    }
    ElementsPrefixOfAll(ts, orders);
    r := sb + "]";
  }

  // ---------------------------------------------------------------------------
  // Reading the encoder's output back
  // ---------------------------------------------------------------------------

  /** Length of the run of digits that starts `s`. */
  function DigitRun(s: string): (k: nat)
    ensures k <= |s| && AllDigits(s[..k])
    ensures k < |s| ==> !IsDigit(s[k])
  {
    if s == [] || !IsDigit(s[0]) then 0
    else
      var k' := DigitRun(s[1..]);
      assert s[..1 + k'] == [s[0]] + s[1..][..k'];
      1 + k'
  }

  /** A run of digits and the number it denotes. */
  function ParseDigits(s: string): (r: Option<(nat, string)>)
    ensures r.Some? ==> |r.value.1| < |s|
  {
    var k := DigitRun(s);
    if k == 0 then None else Some((DigitsValue(s[..k]), s[k..]))
  }

  /** An optional minus sign and a run of digits. */
  function ParseNumber(s: string): (r: Option<(Value, string)>)
    ensures r.Some? ==> |r.value.1| < |s|
  {
    if |s| > 0 && s[0] == '-' then
      match ParseDigits(s[1..])
      case None => None
      case Some((magnitude, rest)) => Some((Num(-(magnitude as int)), rest))
    else
      match ParseDigits(s)
      case None => None
      case Some((magnitude, rest)) => Some((Num(magnitude), rest))
  }

  function ParseValue(s: string): (r: Option<(Value, string)>)
    ensures r.Some? ==> |r.value.1| < |s|
  {
    if |s| >= 4 && s[..4] == "null" then Some((Null, s[4..]))
    else if |s| > 0 && s[0] == '"' then
      match ParseString(s[1..])
      case None => None
      case Some((text, rest)) => Some((Str(text), rest))
    else ParseNumber(s)
  }

  /** A key: everything up to the next double quote, since keys are written unescaped. */
  function ParseKey(s: string): (r: Option<(string, string)>)
    ensures r.Some? ==> |r.value.1| < |s|
  {
    if s == [] then None
    else if s[0] == '"' then Some(([], s[1..]))
    else match ParseKey(s[1..])
      case None => None
      case Some((key, rest)) => Some(([s[0]] + key, rest))
  }

  /** Members after the opening brace, up to and including the closing brace. */
  function ParseMembers(s: string): (r: Option<(Entries, string)>)
    ensures r.Some? ==> |r.value.1| < |s|
    decreases |s|
  {
    if s == [] || s[0] != '"' then None
    else match ParseKey(s[1..])
      case None => None
      case Some((key, r1)) =>
        if r1 == [] || r1[0] != ':' then None
        else match ParseValue(r1[1..])
          case None => None
          case Some((v, r2)) =>
            if r2 == [] then None
            else if r2[0] == '}' then Some(([(key, v)], r2[1..]))
            else if r2[0] == ',' then
              match ParseMembers(r2[1..])
              case None => None
              case Some((more, r3)) => Some(([(key, v)] + more, r3))
            else None
  }

  function ParseObject(s: string): (r: Option<(Entries, string)>)
    ensures r.Some? ==> |r.value.1| < |s|
  {
    if |s| < 2 || s[0] != '{' then None
    else if s[1] == '}' then Some(([], s[2..]))
    else ParseMembers(s[1..])
  }

  /** Objects after the opening bracket, up to and including the closing bracket. */
  function ParseElements(s: string): (r: Option<(seq<Entries>, string)>)
    ensures r.Some? ==> |r.value.1| < |s|
    decreases |s|
  {
    match ParseObject(s)
    case None => None
    case Some((e, r1)) =>
      if r1 == [] then None
      else if r1[0] == ']' then Some(([e], r1[1..]))
      else if r1[0] == ',' then
        match ParseElements(r1[1..])
        case None => None
        case Some((more, r2)) => Some(([e] + more, r2))
      else None
  }

  function ParseArray(s: string): (r: Option<(seq<Entries>, string)>)
    ensures r.Some? ==> |r.value.1| < |s|
  {
    if |s| < 2 || s[0] != '[' then None
    else if s[1] == ']' then Some(([], s[2..]))
    else ParseElements(s[1..])
  }

  /** The map a list of members denotes. */
  function EntriesToObject(es: Entries): Object
  {
    if es == [] then map[] else EntriesToObject(es[1..])[es[0].0 := es[0].1]
  }

  function DecodeObject(s: string): Option<Object>
  {
    match ParseObject(s)
    case Some((es, rest)) => if rest == [] then Some(EntriesToObject(es)) else None
    case None => None
  }

  function DecodeArray(s: string): Option<seq<Object>>
  {
    match ParseArray(s)
    case Some((ess, rest)) =>
      if rest == [] then Some(seq(|ess|, i requires 0 <= i < |ess| => EntriesToObject(ess[i]))) else None
    case None => None
  }

  // ---------------------------------------------------------------------------
  // Round trips
  // ---------------------------------------------------------------------------

  /** Keys the encoder can write without breaking the text: no double quote inside. */
  predicate PlainKeys(keys: seq<string>)
  {
    forall i :: 0 <= i < |keys| ==> '"' !in keys[i]
  }

  /** The members of `t` in the given order. */
  function EntriesOf(t: Object, keys: seq<string>): Entries
    requires forall k :: k in keys ==> k in t
  {
    if keys == [] then [] else [(keys[0], t[keys[0]])] + EntriesOf(t, keys[1..])
  }

  /** Whatever may follow a value in the encoder's output. */
  predicate EndsValue(rest: string)
  {
    rest == [] || !IsDigit(rest[0])
  }

  lemma DigitRunOfDigits(d: string, rest: string)
    requires AllDigits(d) && EndsValue(rest)
    ensures DigitRun(d + rest) == |d|
  {
    var s := d + rest;
    var k := DigitRun(s);
    assert forall i :: 0 <= i < |d| ==> s[i] == d[i];
    if rest != [] {
      assert s[|d|] == rest[0];
    }
  }

  lemma ParseNullOfValueToJson(rest: string)
    ensures ParseValue(ValueToJson(Null) + rest) == Some((Null, rest))
  {
    var s := ValueToJson(Null) + rest;
    assert s[..4] == "null" && s[4..] == rest;
  }

  /** Text starting with a double quote is read as a string. */
  lemma ParseValueOfQuoted(s: string)
    requires |s| > 0 && s[0] == '"'
    ensures ParseValue(s) ==
      match ParseString(s[1..])
      case None => None
      case Some((text, rest)) => Some((Str(text), rest))
  {
    if |s| >= 4 {
      assert s[..4][0] == s[0];
    }
  }

  lemma ParseStrOfValueToJson(text: string, rest: string)
    ensures ParseValue(ValueToJson(Str(text)) + rest) == Some((Str(text), rest))
  {
    var escaped := EscapeJson(text);
    var s := "\"" + escaped + "\"" + rest;
    assert ValueToJson(Str(text)) + rest == s;
    AfterOpening("\"", escaped, "\"", rest);
    ParseStringOfEscapeJson(text, rest);
    ParseValueOfQuoted(s);
  }

  /** A minus sign followed by a magnitude is read as the negated magnitude. */
  lemma ParseNegative(s: string, m: nat, rest: string)
    requires |s| > 0 && s[0] == '-' && ParseDigits(s[1..]) == Some((m, rest))
    ensures ParseNumber(s) == Some((Num(-(m as int)), rest))
  {
  }

  /** A magnitude without a sign is read as itself. */
  lemma ParsePositive(s: string, m: nat, rest: string)
    requires |s| > 0 && s[0] != '-' && ParseDigits(s) == Some((m, rest))
    ensures ParseNumber(s) == Some((Num(m), rest))
  {
  }

  /** A run of digits ending where the value ends is read as the number it denotes. */
  lemma ParseDigitsOfDigits(digits: string, rest: string)
    requires |digits| > 0 && AllDigits(digits) && EndsValue(rest)
    ensures ParseDigits(digits + rest) == Some((DigitsValue(digits), rest))
  {
    var t := digits + rest;
    DigitRunOfDigits(digits, rest);
    assert t[..|digits|] == digits && t[|digits|..] == rest;
  }

  /** Text starting with a minus sign or a digit is read as a number. */
  lemma ParseValueOfNumberText(s: string)
    requires |s| > 0 && (s[0] == '-' || IsDigit(s[0]))
    ensures ParseValue(s) == ParseNumber(s)
  {
    if |s| >= 4 {
      assert s[..4][0] == s[0];
    }
  }

  lemma ParseNumOfValueToJson(n: int, rest: string)
    requires EndsValue(rest)
    ensures ParseValue(ValueToJson(Num(n)) + rest) == Some((Num(n), rest))
  {
    var m: nat := if n < 0 then -n else n;
    var digits := NatToString(m);
    var t := digits + rest;
    ParseDigitsOfDigits(digits, rest);
    DigitsValueOfNatToString(m);
    assert t[0] == digits[0] && IsDigit(digits[0]);
    var s := if n < 0 then "-" + t else t;
    if n < 0 {
      Regroup3("-", digits, rest);
      AfterFirst("-", t);
      ParseNegative(s, m, rest);
    } else {
      ParsePositive(s, m, rest);
    }
    assert ValueToJson(Num(n)) + rest == s;
    ParseValueOfNumberText(s);
  }

  lemma ParseValueOfValueToJson(v: Value, rest: string)
    requires EndsValue(rest)
    ensures ParseValue(ValueToJson(v) + rest) == Some((v, rest))
  {
    match v
    case Null => ParseNullOfValueToJson(rest);
    case Str(text) => ParseStrOfValueToJson(text, rest);
    case Num(n) => ParseNumOfValueToJson(n, rest);
  }

  lemma ParseKeyOfPlain(key: string, rest: string)
    requires '"' !in key
    ensures ParseKey(key + "\"" + rest) == Some((key, rest))
    decreases |key|
  {
    if key == [] {
      assert key + "\"" + rest == "\"" + rest;
    } else {
      assert key == [key[0]] + key[1..];
      assert (key + "\"" + rest)[0] == key[0] != '"';
      assert (key + "\"" + rest)[1..] == key[1..] + "\"" + rest;
      ParseKeyOfPlain(key[1..], rest);
    }
  }

  /** Where the key of a written member starts and ends, and where its value starts. */
  lemma MemberLayout(key: string, text: string, tail: string)
    ensures var s := "\"" + key + "\":" + text + tail;
      s[0] == '"' && s[1..] == key + "\"" + (":" + text + tail)
    ensures var r1 := ":" + text + tail;
      r1[0] == ':' && r1[1..] == text + tail
  {
    var s := "\"" + key + "\":" + text + tail;
    assert s[1..] == key + "\":" + text + tail;
    assert "\":" == "\"" + ":";
  }

  /** How the reader goes on after a key, a colon and a value. */
  lemma ParseMembersStep(s: string, key: string, r1: string, v: Value, r2: string)
    requires s != [] && s[0] == '"' && ParseKey(s[1..]) == Some((key, r1))
    requires r1 != [] && r1[0] == ':' && ParseValue(r1[1..]) == Some((v, r2))
    requires r2 != [] && (r2[0] == '}' || r2[0] == ',')
    ensures ParseMembers(s) ==
      if r2[0] == '}' then Some(([(key, v)], r2[1..]))
      else match ParseMembers(r2[1..])
        case None => None
        case Some((more, r3)) => Some(([(key, v)] + more, r3))
  {
  }

  /** One member followed by a closing brace or a comma is read as that member, then the rest. */
  lemma ParseMembersOfMember(key: string, v: Value, tail: string)
    requires '"' !in key && tail != [] && (tail[0] == '}' || tail[0] == ',')
    ensures ParseMembers(MemberToJson(key, v) + tail) ==
      if tail[0] == '}' then Some(([(key, v)], tail[1..]))
      else match ParseMembers(tail[1..])
        case None => None
        case Some((more, r3)) => Some(([(key, v)] + more, r3))
  {
    var text := ValueToJson(v);
    var r1 := ":" + text + tail;
    var s := "\"" + key + "\":" + text + tail;
    assert MemberToJson(key, v) + tail == s;
    MemberLayout(key, text, tail);
    ParseKeyOfPlain(key, r1);
    ParseValueOfValueToJson(v, tail);
    ParseMembersStep(s, key, r1, v, tail);
  }

  lemma PlainKeysTail(keys: seq<string>)
    requires |keys| > 0 && PlainKeys(keys)
    ensures '"' !in keys[0] && PlainKeys(keys[1..])
  {
    forall i | 0 <= i < |keys[1..]| ensures '"' !in keys[1..][i] {
      assert keys[1..][i] == keys[i + 1];
    }
  }

  /** The text of the members of a non-empty key list starts with the first key's opening quote. */
  lemma MembersToJsonStart(t: Object, keys: seq<string>)
    requires |keys| > 0 && forall k :: k in keys ==> k in t
    ensures |MembersToJson(t, keys)| > 0 && MembersToJson(t, keys)[0] == '"'
  {
    var first := MemberToJson(keys[0], t[keys[0]]);
    assert first[0] == '"';
    if |keys| > 1 {
      assert MembersToJson(t, keys) == first + "," + MembersToJson(t, keys[1..]);
    }
  }

  lemma {:induction false} ParseMembersOfMembersToJson(t: Object, keys: seq<string>, rest: string)
    requires |keys| > 0 && (forall k :: k in keys ==> k in t) && PlainKeys(keys)
    ensures ParseMembers(MembersToJson(t, keys) + "}" + rest) == Some((EntriesOf(t, keys), rest))
    decreases |keys|
  {
    var key, v := keys[0], t[keys[0]];
    var first := MemberToJson(key, v);
    PlainKeysTail(keys);
    if |keys| == 1 {
      var tail := "}" + rest;
      assert MembersToJson(t, keys) == first;
      Regroup3(first, "}", rest);
      AfterFirst("}", rest);
      ParseMembersOfMember(key, v, tail);
      assert tail[0] == '}' && tail[1..] == rest;
      assert keys[1..] == [];
      assert EntriesOf(t, keys) == [(key, v)] + EntriesOf(t, []) == [(key, v)];
    } else {
      var others := MembersToJson(t, keys[1..]);
      var more := others + "}" + rest;
      var tail := "," + more;
      assert MembersToJson(t, keys) == first + "," + others;
      Regroup5(first, ",", others, "}", rest);
      AfterFirst(",", more);
      assert tail[0] == ',' && tail[1..] == more;
      ParseMembersOfMember(key, v, tail);
      ParseMembersOfMembersToJson(t, keys[1..], rest);
      assert EntriesOf(t, keys) == [(key, v)] + EntriesOf(t, keys[1..]);
    }
  }

  /** How the reader starts on an object: `{}` is empty, anything else goes to the members. */
  lemma ParseObjectStep(s: string)
    requires |s| >= 2 && s[0] == '{'
    ensures ParseObject(s) == if s[1] == '}' then Some(([], s[2..])) else ParseMembers(s[1..])
  {
  }

  lemma ParseObjectOfObjectToJson(t: Object, keys: seq<string>, rest: string)
    requires EnumeratesKeys(keys, t) && PlainKeys(keys)
    ensures ParseObject(ObjectToJson(t, keys) + rest) == Some((EntriesOf(t, keys), rest))
  {
    var members := MembersToJson(t, keys);
    var s := "{" + members + "}" + rest;
    assert ObjectToJson(t, keys) + rest == s;
    AfterOpening("{", members, "}", rest);
    if keys == [] {
      assert s == "{}" + rest;
      assert s[2..] == rest;
      ParseObjectStep(s);
    } else {
      MembersToJsonStart(t, keys);
      assert s[1] == members[0];
      ParseObjectStep(s);
      ParseMembersOfMembersToJson(t, keys, rest);
    }
  }

  /** The members of every element of a list, in list order. */
  function AllEntries(ts: seq<Object>, orders: seq<seq<string>>): (r: seq<Entries>)
    requires EnumeratesAll(ts, orders)
    ensures |r| == |ts|
  {
    if ts == [] then []
    else
      assert EnumeratesKeys(orders[0], ts[0]);
      [EntriesOf(ts[0], orders[0])] + AllEntries(ts[1..], orders[1..])
  }

  predicate AllPlainKeys(orders: seq<seq<string>>)
  {
    forall i :: 0 <= i < |orders| ==> PlainKeys(orders[i])
  }

  lemma EnumeratesAllTail(ts: seq<Object>, orders: seq<seq<string>>)
    requires |ts| > 0 && EnumeratesAll(ts, orders) && AllPlainKeys(orders)
    ensures EnumeratesKeys(orders[0], ts[0]) && PlainKeys(orders[0])
    ensures EnumeratesAll(ts[1..], orders[1..]) && AllPlainKeys(orders[1..])
  {
    forall i | 0 <= i < |ts[1..]|
      ensures EnumeratesKeys(orders[1..][i], ts[1..][i]) && PlainKeys(orders[1..][i])
    {
      assert orders[1..][i] == orders[i + 1] && ts[1..][i] == ts[i + 1];
    }
  }

  /** How the reader goes on after an object. */
  lemma ParseElementsStep(s: string, e: Entries, r1: string)
    requires ParseObject(s) == Some((e, r1)) && r1 != [] && (r1[0] == ']' || r1[0] == ',')
    ensures ParseElements(s) ==
      if r1[0] == ']' then Some(([e], r1[1..]))
      else match ParseElements(r1[1..])
        case None => None
        case Some((more, r2)) => Some(([e] + more, r2))
  {
  }

  lemma {:induction false} ParseElementsOfElementsToJson(ts: seq<Object>, orders: seq<seq<string>>, rest: string)
    requires |ts| > 0 && EnumeratesAll(ts, orders) && AllPlainKeys(orders)
    ensures ParseElements(ElementsToJson(ts, orders) + "]" + rest) == Some((AllEntries(ts, orders), rest))
    decreases |ts|
  {
    EnumeratesAllTail(ts, orders);
    var first := ObjectToJson(ts[0], orders[0]);
    var e := EntriesOf(ts[0], orders[0]);
    if |ts| == 1 {
      var tail := "]" + rest;
      assert ElementsToJson(ts, orders) == first;
      Regroup3(first, "]", rest);
      AfterFirst("]", rest);
      assert tail[0] == ']' && tail[1..] == rest;
      ParseObjectOfObjectToJson(ts[0], orders[0], tail);
      ParseElementsStep(first + tail, e, tail);
      assert ts[1..] == [] && orders[1..] == [];
      assert AllEntries(ts, orders) == [e] + AllEntries([], []) == [e];
    } else {
      var others := ElementsToJson(ts[1..], orders[1..]);
      var more := others + "]" + rest;
      var tail := "," + more;
      assert ElementsToJson(ts, orders) == first + "," + others;
      Regroup5(first, ",", others, "]", rest);
      AfterFirst(",", more);
      assert tail[0] == ',' && tail[1..] == more;
      ParseObjectOfObjectToJson(ts[0], orders[0], tail);
      ParseElementsStep(first + tail, e, tail);
      ParseElementsOfElementsToJson(ts[1..], orders[1..], rest);
      assert AllEntries(ts, orders) == [e] + AllEntries(ts[1..], orders[1..]);
    }
  }

  lemma {:induction false} EntriesToObjectOfEntriesOf(t: Object, keys: seq<string>)
    requires forall k :: k in keys ==> k in t
    ensures EntriesToObject(EntriesOf(t, keys)) == map k | k in keys :: t[k]
    decreases |keys|
  {
    if keys != [] {
      EntriesToObjectOfEntriesOf(t, keys[1..]);
      var es := EntriesOf(t, keys);
      assert es[1..] == EntriesOf(t, keys[1..]);
      assert (map k | k in keys[1..] :: t[k])[keys[0] := t[keys[0]]] == map k | k in keys :: t[k];
    }
  }

  /** Reading back the output of `toJson(Map)` gives the same map, provided no key contains a double quote. */
  lemma DecodeObjectOfObjectToJson(t: Object, keys: seq<string>)
    requires EnumeratesKeys(keys, t) && PlainKeys(keys)
    ensures DecodeObject(ObjectToJson(t, keys)) == Some(t)
  {
    ParseObjectOfObjectToJson(t, keys, []);
    assert ObjectToJson(t, keys) + [] == ObjectToJson(t, keys);
    EntriesToObjectOfEntriesOf(t, keys);
    assert (map k | k in keys :: t[k]) == t;
  }

  /** Turning every parsed element back into a map gives the original list. */
  lemma EntriesToObjectOfAllEntries(ts: seq<Object>, orders: seq<seq<string>>)
    requires EnumeratesAll(ts, orders)
    ensures var ess := AllEntries(ts, orders);
      seq(|ess|, i requires 0 <= i < |ess| => EntriesToObject(ess[i])) == ts
  {
    var ess := AllEntries(ts, orders);
    forall i | 0 <= i < |ts| ensures EntriesToObject(ess[i]) == ts[i] {
      AllEntriesAt(ts, orders, i);
      assert EnumeratesKeys(orders[i], ts[i]);
      EntriesToObjectOfEntriesOf(ts[i], orders[i]);
      assert (map k | k in orders[i] :: ts[i][k]) == ts[i];
    }
  }

  /** How the reader starts on a list: `[]` is empty, anything else goes to the elements. */
  lemma ParseArrayStep(s: string)
    requires |s| >= 2 && s[0] == '['
    ensures ParseArray(s) == if s[1] == ']' then Some(([], s[2..])) else ParseElements(s[1..])
  {
  }

  /** The text of the elements of a non-empty list starts with the first object's opening brace. */
  lemma ElementsToJsonStart(ts: seq<Object>, orders: seq<seq<string>>)
    requires |ts| > 0 && EnumeratesAll(ts, orders)
    ensures |ElementsToJson(ts, orders)| > 0 && ElementsToJson(ts, orders)[0] == '{'
  {
    assert EnumeratesKeys(orders[0], ts[0]);
    var first := ObjectToJson(ts[0], orders[0]);
    if |ts| > 1 {
      assert ElementsToJson(ts, orders) == first + "," + ElementsToJson(ts[1..], orders[1..]);
    }
  }

  /** Reading back the output of `toJson(List)` gives the same list of maps, element for element. */
  lemma DecodeArrayOfListToJson(ts: seq<Object>, orders: seq<seq<string>>)
    requires EnumeratesAll(ts, orders) && AllPlainKeys(orders)
    ensures DecodeArray(ListToJson(ts, orders)) == Some(ts)
  {
    var elements := ElementsToJson(ts, orders);
    var s := "[" + elements + "]" + [];
    assert ListToJson(ts, orders) == s;
    AfterOpening("[", elements, "]", []);
    var ess := AllEntries(ts, orders);
    if ts == [] {
      assert s == "[]";
      ParseArrayStep(s);
      assert ess == [];
      assert seq(|ess|, i requires 0 <= i < |ess| => EntriesToObject(ess[i])) == ts;
    } else {
      ElementsToJsonStart(ts, orders);
      assert s[1] == elements[0];
      ParseArrayStep(s);
      ParseElementsOfElementsToJson(ts, orders, []);
      EntriesToObjectOfAllEntries(ts, orders);
    }
    assert ParseArray(s) == Some((ess, []));
  }

  lemma {:induction false} AllEntriesAt(ts: seq<Object>, orders: seq<seq<string>>, i: nat)
    requires EnumeratesAll(ts, orders) && i < |ts|
    ensures EnumeratesKeys(orders[i], ts[i]) && AllEntries(ts, orders)[i] == EntriesOf(ts[i], orders[i])
    decreases i
  {
    if i > 0 {
      assert EnumeratesAll(ts[1..], orders[1..]) by {
        forall j | 0 <= j < |ts[1..]| ensures EnumeratesKeys(orders[1..][j], ts[1..][j]) {
          assert orders[1..][j] == orders[j + 1] && ts[1..][j] == ts[j + 1];
        }
      }
      AllEntriesAt(ts[1..], orders[1..], i - 1);
    }
  }

  /** Keys are written unescaped: a key holding a double quote makes the output unreadable. */
  lemma QuotedKeyBreaksOutput()
    ensures DecodeObject(ObjectToJson(map["a\"" := Null], ["a\""])) == None
  {
    var s := ObjectToJson(map["a\"" := Null], ["a\""]);
    assert s == "{\"a\"\":null}";
    assert s[1..] == "\"a\"\":null}" && s[2..] == "a\"\":null}";
    assert "a\"\":null}"[1..] == "\"\":null}";
    assert ParseKey("\"\":null}") == Some(([], "\":null}"));
    assert ParseKey("a\"\":null}") == Some((['a'] + [], "\":null}"));
    assert ParseMembers(s[1..]) == None;
  }
}
