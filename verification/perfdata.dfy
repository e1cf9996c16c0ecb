/**
 * parseNagiosPerfData: every perf-data segment is cut at spaces into `key=value;warn;crit;...`
 * tokens; a token's value is the text before its first ';' with every character other than a
 * digit or '.' removed, and it is stored under its key when it parses as a number.
 */
module NagiosPerfData {
  import opened Wrappers
  import opened GoStrings

  /** strconv.ParseFloat(s, 64), kept abstract: the number a string denotes, if it is one. */
  type FloatParser = String -> Option<real>

  /** The regexp `[^0-9.]+` replaced by "": only the digits and the dots are left, in order. */
  function StripNonNumeric(s: String): (r: String)
    ensures |r| <= |s|
    ensures forall k | 0 <= k < |r| :: IsNumeric(r[k])
  {
    if s == [] then []
    else StripNonNumeric(s[..|s| - 1]) + (if IsNumeric(s[|s| - 1]) then [s[|s| - 1]] else [])
  }

  /** Stripping works piece by piece. */
  lemma {:induction false} StripAppend(a: String, b: String)
    ensures StripNonNumeric(a + b) == StripNonNumeric(a) + StripNonNumeric(b)
    decreases |b|
  {
    if b == [] {
      assert a + b == a;
    } else {
      var init := b[..|b| - 1];
      assert (a + b)[..|a + b| - 1] == a + init;
      StripAppend(a, init);
    }
  }

  /** A string of digits and dots is left as it is. */
  lemma {:induction false} StripKeepsNumeric(s: String)
    requires forall k | 0 <= k < |s| :: IsNumeric(s[k])
    ensures StripNonNumeric(s) == s
    decreases |s|
  {
    if s != [] {
      StripKeepsNumeric(s[..|s| - 1]);
    }
  }

  /** A string with neither digits nor dots is removed entirely. */
  lemma {:induction false} StripDropsOthers(s: String)
    requires forall k | 0 <= k < |s| :: !IsNumeric(s[k])
    ensures StripNonNumeric(s) == []
    decreases |s|
  {
    if s != [] {
      StripDropsOthers(s[..|s| - 1]);
    }
  }

  /** The text a value is read from: the part before the first ';', stripped. */
  function ValueText(rest: String): (r: String)
    ensures ';' !in rest ==> r == StripNonNumeric(rest)
    ensures ';' in rest ==> r == StripNonNumeric(rest[..IndexOf(rest, ';')])
  {
    StripNonNumeric(Split(rest, ';')[0])
  }

  /**
   * What one space-separated token contributes: a key and a value when it holds a '=' and the
   * text after the first '=' gives a number; nothing otherwise (EntryShape).
   */
  function Entry(token: String, parse: FloatParser): Option<(String, real)>
  {
    var values := Cut(token, '=');
    if |values| == 2 then
      match parse(ValueText(values[1]))
      case Some(v) => Some((values[0], v))
      case None => None
    else None
  }

  /**
   * Only tokens with a '=' contribute; the key is the text before the first '=' and the value is
   * read from the text after it.
   */
  lemma EntryShape(token: String, parse: FloatParser)
    ensures '=' !in token ==> Entry(token, parse).None?
    ensures '=' in token ==>
      var i := IndexOf(token, '=');
      && (Entry(token, parse).Some? <==> parse(ValueText(token[i + 1..])).Some?)
      && (Entry(token, parse).Some? ==>
            Entry(token, parse).value == (token[..i], parse(ValueText(token[i + 1..])).value))
  {
    if '=' in token {
      var i := IndexOf(token, '=');
      var key, rest := token[..i], token[i + 1..];
      assert token == key + ['='] + rest;
      CutAt(key, '=', rest);
      assert Cut(token, '=') == [key, rest];
    } else {
      assert Cut(token, '=') == [token];
    }
  }

  /** The value text of `<number><unit>[;<thresholds>]` is the number. */
  lemma ValueTextOfMeasurement(number: String, unit: String, tail: String)
    requires forall k | 0 <= k < |number| :: IsNumeric(number[k])
    requires forall k | 0 <= k < |unit| :: !IsNumeric(unit[k]) && unit[k] != ';'
    requires tail == [] || tail[0] == ';'
    ensures ValueText(number + unit + tail) == number
  {
    var reading := number + unit;
    forall k | 0 <= k < |reading| ensures reading[k] != ';' {
      if k < |number| {
        assert IsNumeric(number[k]);
      } else {
        assert reading[k] == unit[k - |number|];
      }
    }
    if tail == [] {
      assert reading + tail == reading;
    } else {
      assert reading + tail == reading + [';'] + tail[1..];
      IndexOfAfter(reading, ';', tail[1..]);
      assert (reading + tail)[..|reading|] == reading;
    }
    StripAppend(number, unit);
    StripKeepsNumeric(number);
    StripDropsOthers(unit);
  }

  /**
   * A token `key=<number><unit>[;<thresholds>]`, such as `time=120ms;500;1000`, gives the key and
   * the value parsed from the number alone: the unit and the thresholds are dropped.
   */
  lemma EntryOfMeasurement(key: String, number: String, unit: String, tail: String, parse: FloatParser)
    requires '=' !in key
    requires forall k | 0 <= k < |number| :: IsNumeric(number[k])
    requires forall k | 0 <= k < |unit| :: !IsNumeric(unit[k]) && unit[k] != ';'
    requires tail == [] || tail[0] == ';'
    ensures Entry(key + ['='] + number + unit + tail, parse) ==
      match parse(number) case Some(v) => Some((key, v)) case None => None
  {
    var rest := number + unit + tail;
    var token := key + ['='] + rest;
    assert key + ['='] + number + unit + tail == token;
    IndexOfAfter(key, '=', rest);
    assert token[..|key|] == key && token[|key| + 1..] == rest;
    ValueTextOfMeasurement(number, unit, tail);
    EntryShape(token, parse);
  }

  /** With the decimal parser, `key=<n><unit>[;<thresholds>]` records n under key. */
  lemma EntryOfWholeNumber(key: String, n: nat, unit: String, tail: String)
    requires '=' !in key
    requires forall k | 0 <= k < |unit| :: !IsNumeric(unit[k]) && unit[k] != ';'
    requires tail == [] || tail[0] == ';'
    ensures Entry(key + ['='] + NatToDecimal(n) + unit + tail, DecimalParser) == Some((key, n as real))
  {
    ParseDecimalNat(n);
    EntryOfMeasurement(key, NatToDecimal(n), unit, tail, DecimalParser);
  }

  /**
   * With the decimal parser, `key=<whole>.<frac><unit>[;<thresholds>]` records whole plus the
   * fraction frac denotes: `load=3.2` records 3.2.
   */
  lemma EntryOfFraction(key: String, whole: nat, frac: String, unit: String, tail: String)
    requires '=' !in key && AllDigits(frac)
    requires forall k | 0 <= k < |unit| :: !IsNumeric(unit[k]) && unit[k] != ';'
    requires tail == [] || tail[0] == ';'
    ensures Entry(key + ['='] + (NatToDecimal(whole) + "." + frac) + unit + tail, DecimalParser) ==
      Some((key, whole as real + Fraction(DecimalValue(frac), Pow10(|frac|))))
  {
    ParseDecimalFraction(whole, frac);
    EntryOfMeasurement(key, NatToDecimal(whole) + "." + frac, unit, tail, DecimalParser);
  }

  /** A minus sign goes with the unit: the value text of `-<rest>` is that of `<rest>`. */
  lemma ValueTextUnsigned(rest: String)
    ensures ValueText(['-'] + rest) == ValueText(rest)
  {
    var s := ['-'] + rest;
    assert StripNonNumeric(['-']) == StripNonNumeric([]) + [];
    if ';' in rest {
      var i := IndexOf(rest, ';');
      var reading := rest[..i];
      assert s == (['-'] + reading) + [';'] + rest[i + 1..];
      IndexOfAfter(['-'] + reading, ';', rest[i + 1..]);
      assert s[..i + 1] == ['-'] + reading;
      assert ValueText(s) == StripNonNumeric(['-'] + reading);
      StripAppend(['-'], reading);
    } else {
      assert ';' !in s;
      assert ValueText(s) == StripNonNumeric(['-'] + rest);
      StripAppend(['-'], rest);
    }
  }

  /**
   * A negative reading loses its sign: `key=-5` records what `key=5` records, since the minus
   * sign is stripped with the unit.
   */
  lemma NegativeReadingUnsigned(key: String, rest: String, parse: FloatParser)
    requires '=' !in key
    ensures Entry(key + ['=', '-'] + rest, parse) == Entry(key + ['='] + rest, parse)
  {
    var neg, pos := key + ['='] + (['-'] + rest), key + ['='] + rest;
    assert key + ['=', '-'] + rest == neg;
    IndexOfAfter(key, '=', ['-'] + rest);
    IndexOfAfter(key, '=', rest);
    assert neg[..|key|] == key && neg[|key| + 1..] == ['-'] + rest;
    assert pos[..|key|] == key && pos[|key| + 1..] == rest;
    ValueTextUnsigned(rest);
    EntryShape(neg, parse);
    EntryShape(pos, parse);
  }

  /** The key of a contributing token holds no '='. */
  lemma EntryKey(token: String, parse: FloatParser)
    requires Entry(token, parse).Some?
    ensures '=' !in Entry(token, parse).value.0
    ensures Entry(token, parse).value.0 + ['='] <= token
  {
    EntryShape(token, parse);
    var i := IndexOf(token, '=');
    assert token[..i] + ['='] == token[..i + 1];
  }

  /** One token recorded into the map: its key set to its value, a later one overwriting. */
  function Record(m: map<String, real>, token: String, parse: FloatParser): map<String, real>
  {
    match Entry(token, parse)
    case Some((key, value)) => m[key := value]
    case None => m
  }

  /** The tokens recorded in order, from the map m. */
  function RecordAll(m: map<String, real>, tokens: seq<String>, parse: FloatParser): map<String, real>
  {
    if tokens == [] then m
    else Record(RecordAll(m, tokens[..|tokens| - 1], parse), tokens[|tokens| - 1], parse)
  }

  /** The tokens of the perf-data segments, in order. */
  function PerfTokens(perfData: seq<String>): seq<String>
  {
    if perfData == [] then []
    else PerfTokens(perfData[..|perfData| - 1]) + Split(perfData[|perfData| - 1], ' ')
  }

  /** What parseNagiosPerfData returns. */
  function PerfMap(perfData: seq<String>, parse: FloatParser): map<String, real>
  {
    RecordAll(map[], PerfTokens(perfData), parse)
  }

  lemma {:induction false} RecordAllAppend(m: map<String, real>, a: seq<String>, b: seq<String>, parse: FloatParser)
    ensures RecordAll(m, a + b, parse) == RecordAll(RecordAll(m, a, parse), b, parse)
    decreases |b|
  {
    if b == [] {
      assert a + b == a;
    } else {
      var init := b[..|b| - 1];
      assert (a + b)[..|a + b| - 1] == a + init;
      assert (a + b)[|a + b| - 1] == b[|b| - 1];
      RecordAllAppend(m, a, init, parse);
    }
  }

  /** The inner loop of parseNagiosPerfData over the tokens of one segment. */
  method RecordLine(dataMap: map<String, real>, line: String, parse: FloatParser) returns (m: map<String, real>)
    ensures m == RecordAll(dataMap, Split(line, ' '), parse)
  {
    var tokens := Split(line, ' ');
    m := dataMap;
    var j := 0;
    while j < |tokens|
      invariant 0 <= j <= |tokens|
      invariant m == RecordAll(dataMap, tokens[..j], parse)
    {
      var data := tokens[j];
      assert tokens[..j + 1][..j] == tokens[..j];
      ghost var next := Record(m, data, parse);
      assert RecordAll(dataMap, tokens[..j + 1], parse) == next;
      var values := Cut(data, '=');
      if |values| == 2 {
        var key := values[0];
        var pieces := Split(values[1], ';');
        if |pieces| > 0 {
          var value := StripNonNumeric(pieces[0]);
          var parsed := parse(value);
          if parsed.Some? {
            m := m[key := parsed.value];
          }
        }
      }
      assert m == next;
      j := j + 1;
    }
    assert tokens[..j] == tokens;
  }

  /** parseNagiosPerfData: the segments' tokens recorded one after the other into an empty map. */
  method ParseNagiosPerfData(perfData: seq<String>, parse: FloatParser) returns (dataMap: map<String, real>)
    ensures dataMap == PerfMap(perfData, parse)
  {
    dataMap := map[];
    var i := 0;
    while i < |perfData|
      invariant 0 <= i <= |perfData|
      invariant dataMap == PerfMap(perfData[..i], parse)
    {
      assert perfData[..i + 1][..i] == perfData[..i];
      RecordAllAppend(map[], PerfTokens(perfData[..i]), Split(perfData[i], ' '), parse);
      dataMap := RecordLine(dataMap, perfData[i], parse);
      i := i + 1;
    }
    assert perfData[..i] == perfData;
  }

  // ---------------------------------------------------------------------------------------------
  // What the map holds
  // ---------------------------------------------------------------------------------------------

  /** The token gives a value under this key. */
  predicate Contributes(token: String, key: String, parse: FloatParser)
  {
    Entry(token, parse).Some? && Entry(token, parse).value.0 == key
  }

  /** One token adds its own key, if it contributes one, and no other. */
  lemma RecordDomain(m: map<String, real>, token: String, key: String, parse: FloatParser)
    ensures key in Record(m, token, parse) <==> key in m || Contributes(token, key, parse)
  {
  }

  /** A key is in the map exactly when it was there before or some token contributes it. */
  lemma {:induction false} RecordAllDomain(m: map<String, real>, tokens: seq<String>, key: String, parse: FloatParser)
    ensures key in RecordAll(m, tokens, parse) <==>
      key in m || exists k | 0 <= k < |tokens| :: Contributes(tokens[k], key, parse)
    decreases |tokens|
  {
    if tokens != [] {
      var init := tokens[..|tokens| - 1];
      var last := tokens[|tokens| - 1];
      RecordAllDomain(m, init, key, parse);
      RecordDomain(RecordAll(m, init, parse), last, key, parse);
      ContributorsSnoc(tokens, init, key, parse);
    }
  }

  /** Some token of a list contributes key exactly when one before the last does, or the last does. */
  lemma ContributorsSnoc(tokens: seq<String>, init: seq<String>, key: String, parse: FloatParser)
    requires |tokens| == |init| + 1 && forall k | 0 <= k < |init| :: init[k] == tokens[k]
    ensures (exists k | 0 <= k < |tokens| :: Contributes(tokens[k], key, parse)) <==>
      (exists k | 0 <= k < |init| :: Contributes(init[k], key, parse)) || Contributes(tokens[|init|], key, parse)
  {
  }

  /** The key of the last token that contributes it holds that token's value. */
  lemma {:induction false} RecordAllLastWins(m: map<String, real>, tokens: seq<String>, k: nat, parse: FloatParser)
    requires k < |tokens| && Entry(tokens[k], parse).Some?
    requires forall l | k < l < |tokens| :: !Contributes(tokens[l], Entry(tokens[k], parse).value.0, parse)
    ensures Entry(tokens[k], parse).value.0 in RecordAll(m, tokens, parse)
    ensures RecordAll(m, tokens, parse)[Entry(tokens[k], parse).value.0] == Entry(tokens[k], parse).value.1
    decreases |tokens|
  {
    var init := tokens[..|tokens| - 1];
    if k < |init| {
      assert init[k] == tokens[k];
      RecordAllLastWins(m, init, k, parse);
      assert !Contributes(tokens[|tokens| - 1], Entry(tokens[k], parse).value.0, parse);
    }
  }

  /** A key no token contributes keeps what the starting map gave it. */
  lemma {:induction false} RecordAllUntouched(m: map<String, real>, tokens: seq<String>, key: String, parse: FloatParser)
    requires forall k | 0 <= k < |tokens| :: !Contributes(tokens[k], key, parse)
    ensures key in RecordAll(m, tokens, parse) <==> key in m
    ensures key in m ==> RecordAll(m, tokens, parse)[key] == m[key]
    decreases |tokens|
  {
    if tokens != [] {
      var init := tokens[..|tokens| - 1];
      assert forall k | 0 <= k < |init| :: init[k] == tokens[k];
      RecordAllUntouched(m, init, key, parse);
    }
  }

  /** A token that contributes nothing (no '=', or a value that does not parse) changes nothing. */
  lemma SkipsFailedToken(m: map<String, real>, a: seq<String>, t: String, b: seq<String>, parse: FloatParser)
    requires Entry(t, parse).None?
    ensures RecordAll(m, a + [t] + b, parse) == RecordAll(m, a + b, parse)
  {
    RecordAllAppend(m, a + [t], b, parse);
    RecordAllAppend(m, a, b, parse);
    assert (a + [t])[..|a|] == a;
  }
}
