/**
 * `ConfigManager`: a setting is looked up as an environment variable (under
 * the key's upper-case, underscore spelling), then as a system property,
 * then in `config.properties`, and a caller-supplied default stands in when
 * none of them has it. The three sources are passed in as maps.
 */
module Config {
  import opened Wrappers
  import opened JavaLang

  /** The three sources, highest precedence first. */
  datatype Sources = Sources(env: map<string, string>, system: map<string, string>, file: map<string, string>)

  /** How `getInt` ends: with a number, or with the `NumberFormatException` of `Integer.parseInt`. */
  datatype IntSetting = IntValue(n: Int32) | NumberFormatException

  /**
   * The environment variable consulted for a key: every `.` becomes `_`, then
   * the letters are upper-cased.
   */
  function EnvName(key: string): (name: string)
    ensures |name| == |key|
    ensures '.' !in name
    ensures forall i :: 0 <= i < |name| ==> !IsLower(name[i])
  {
    ReplaceCharAt(key, '.', '_');
    ToUpperCase(ReplaceChar(key, '.', "_"))
  }

  /** Each character of the name comes from the character of the key at the same place. */
  lemma EnvNameAt(key: string)
    ensures forall i :: 0 <= i < |key| ==>
      EnvName(key)[i] == if key[i] == '.' then '_' else UpperChar(key[i])
  {
    ReplaceCharAt(key, '.', '_');
  }

  /** A name already in environment-variable form is its own environment-variable name. */
  lemma EnvNameIdempotent(key: string)
    ensures EnvName(EnvName(key)) == EnvName(key)
  {
    var name := EnvName(key);
    assert ReplaceChar(name, '.', "_") == name;
  }

  /** `get(key)`: the environment variable, else the system property, else the file entry, else null. */
  function Get(src: Sources, key: string): Option<string>
  {
    var name := EnvName(key);
    if name in src.env then Some(src.env[name])
    else if key in src.system then Some(src.system[key])
    else if key in src.file then Some(src.file[key])
    else None
  }

  /** The environment as seen through key names: every key whose environment-variable name is set. */
  ghost function EnvByKey(env: map<string, string>): imap<string, string>
  {
    imap key | EnvName(key) in env :: env[EnvName(key)]
  }

  /**
   * The settings as one table: the file, overridden by the system properties,
   * overridden by the environment.
   */
  ghost function Layered(src: Sources): imap<string, string>
  {
    var file: imap<string, string> := imap key | key in src.file :: src.file[key];
    var system: imap<string, string> := imap key | key in src.system :: src.system[key];
    file + system + EnvByKey(src.env)
  }

  /** `get(key)` reads the layered table. */
  lemma GetIsLayeredLookup(src: Sources, key: string)
    ensures Get(src, key).Some? <==> key in Layered(src)
    ensures Get(src, key).Some? ==> Get(src, key).value == Layered(src)[key]
  {
  }

  /** A source that has the key hides every source below it, whatever those hold. */
  lemma HigherSourceShadows(src: Sources, system: map<string, string>, file: map<string, string>, key: string)
    ensures EnvName(key) in src.env ==>
      Get(Sources(src.env, system, file), key) == Get(src, key) == Some(src.env[EnvName(key)])
    ensures key in src.system ==>
      Get(Sources(src.env, src.system, file), key) == Get(src, key)
      && (EnvName(key) !in src.env ==> Get(src, key) == Some(src.system[key]))
  {
  }

  /** Setting a system property is seen by `get` unless the environment overrides that key. */
  lemma SetPropertyThenGet(src: Sources, key: string, value: string)
    ensures var after := Sources(src.env, src.system[key := value], src.file);
      Get(after, key) == if EnvName(key) in src.env then Some(src.env[EnvName(key)]) else Some(value)
  {
  }

  /** `get(key, default)`: the looked-up value, or the default when there is none. */
  function GetOr(src: Sources, key: string, default: string): (r: string)
    ensures Get(src, key).None? ==> r == default
    ensures Get(src, key).Some? ==> r == Get(src, key).value
  {
    match Get(src, key)
    case Some(v) => v
    case None => default
  }

  /** `getInt(key, default)`: the default when absent; otherwise the value must parse, and a malformed one throws. */
  function GetInt(src: Sources, key: string, default: Int32): (r: IntSetting)
    ensures Get(src, key).None? ==> r == IntValue(default)
    ensures Get(src, key).Some? ==> (r == NumberFormatException <==> ParseInt(Get(src, key).value).None?)
    ensures Get(src, key).Some? && r.IntValue? ==> ParseInt(Get(src, key).value) == Some(r.n)
  {
    match Get(src, key)
    case None => IntValue(default)
    case Some(v) =>
      match ParseInt(v)
      case Some(n) => IntValue(n)
      case None => NumberFormatException
  }

  /** A setting written by `Integer.toString` reads back as that number, whatever the default. */
  lemma GetIntOfWrittenNumber(src: Sources, key: string, n: Int32, default: Int32)
    requires Get(src, key) == Some(IntToString(n))
    ensures GetInt(src, key, n) == GetInt(src, key, default) == IntValue(n)
  {
    ParseIntOfIntToString(n);
  }

  /** The shape `Integer.parseInt` accepts: an optional sign, then one or more decimal digits. */
  predicate DecimalSyntax(v: string)
  {
    && |v| > 0
    && var digits := if v[0] == '-' || v[0] == '+' then v[1..] else v;
       |digits| > 0 && AllDigits(digits)
  }

  /** A value that is not written as a decimal number is an error, never the default. */
  lemma GetIntMalformed(src: Sources, key: string, v: string, default: Int32)
    requires Get(src, key) == Some(v) && !DecimalSyntax(v)
    ensures GetInt(src, key, default) == NumberFormatException
  {
    assert ParseInt(v).None?;
  }

  /** `getBoolean(key, default)`: the default when absent; otherwise whether the value is "true" in any case. */
  function GetBoolean(src: Sources, key: string, default: bool): (r: bool)
    ensures Get(src, key).None? ==> r == default
    ensures Get(src, key).Some? ==> (r <==> ToUpperCase(Get(src, key).value) == "TRUE")
  {
    match Get(src, key)
    case None => default
    case Some(v) =>
      EqualsIgnoreCaseIsUpperEqual(v, "true");
      assert ToUpperCase("true") == "TRUE";
      EqualsIgnoreCase(v, "true")
  }
}
