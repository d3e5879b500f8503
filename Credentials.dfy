/** The credential-file loader `ler_credenciais`: every line of the file is a
    `key = value` pair; values may carry a `{cliente}` placeholder for the
    client's name and surrounding quotes and braces that are removed. */
module Credentials {
  import opened Wrappers
  import opened PyStr

  /** The exact text every line is split on. */
  const Separator := " = "
  /** The placeholder replaced by the client's name. */
  const Placeholder := "{cliente}"
  /** The arguments of the two `strip` calls on a value. */
  const Quote := Chars({'\''})
  const Braces := Chars({'{', '}'})

  /** Python's `ValueError` from `chave, valor = ...` on the line at index
      `line`: one piece only ("not enough values to unpack"), or more than
      two ("too many values to unpack"). */
  datatype ParseError = NotEnoughValues(line: nat) | TooManyValues(line: nat)

  /** The loader substitutes only when a client was passed and it is not the
      empty string (Python truthiness of `cliente`). */
  predicate HasClient(client: Option<string>)
  {
    client.Some? && client.value != ""
  }

  /** Placeholder substitution guarded by `'{cliente}' in valor and cliente`. */
  function Substitute(value: string, client: Option<string>): string
  {
    if Contains(value, Placeholder) && HasClient(client) then
      Replace(value, Placeholder, client.value)
    else
      value
  }

  /** With a client, every `{cliente}` in the value becomes the client's name
      (the value is cut at each placeholder and glued back with the name);
      without one, the value is left alone. */
  lemma {:induction false} SubstituteReplacesAll(value: string, client: Option<string>)
    ensures HasClient(client) ==> Substitute(value, client) == Join(Split(value, Placeholder), client.value)
    ensures !HasClient(client) ==> Substitute(value, client) == value
  {
    if HasClient(client) {
      ReplaceIsJoinOfSplit(value, Placeholder, client.value);
      if !Contains(value, Placeholder) {
        SplitJoin(value, Placeholder);
      }
    }
  }

  /** `valor.strip("'").strip('{}')`: quotes first, then braces. */
  function CleanValue(value: string): string
  {
    Strip(Strip(value, Quote), Braces)
  }

  /** A stored value never begins or ends with a brace. */
  lemma {:induction false} CleanValueHasNoOuterBraces(value: string)
    ensures var r := CleanValue(value);
            r != [] ==> r[0] !in {'{', '}'} && r[|r| - 1] !in {'{', '}'}
  {
    StripSpec(Strip(value, Quote), Braces);
  }

  /** Quotes are stripped before braces, so quotes inside braces survive. */
  lemma {:induction false} CleanValueKeepsInnerQuotes()
    ensures CleanValue("{'x'}") == "'x'"
  {
    var v := "{'x'}";
    assert Strip(v, Quote) == v by {
      assert TrimStart(v, Quote) == v;
      assert TrimEnd(v, Quote) == v;
    }
    var inner := "'x'";
    assert TrimStart(v, Braces) == inner + "}" by {
      assert v[1..] == inner + "}";
      assert TrimStart(inner + "}", Braces) == inner + "}";
    }
    assert TrimEnd(inner + "}", Braces) == inner by {
      assert (inner + "}")[..|inner|] == inner;
      assert TrimEnd(inner, Braces) == inner;
    }
  }

  /** Without a client the placeholder stays and only loses its braces. */
  lemma {:induction false} PlaceholderWithoutClient()
    ensures CleanValue(Substitute(Placeholder, None)) == "cliente"
  {
    var v := Placeholder;
    assert Substitute(v, None) == v by { assert !HasClient(None); }
    assert Strip(v, Quote) == v by {
      assert TrimStart(v, Quote) == v;
      assert TrimEnd(v, Quote) == v;
    }
    var inner := "cliente";
    assert TrimStart(v, Braces) == inner + "}" by {
      assert v[1..] == inner + "}";
      assert TrimStart(inner + "}", Braces) == inner + "}";
    }
    assert TrimEnd(inner + "}", Braces) == inner by {
      assert (inner + "}")[..|inner|] == inner;
      assert TrimEnd(inner, Braces) == inner;
    }
  }

  /** What one line contributes: a key bound to its processed value, or the
      reason the line is not a single `key = value` pair. */
  datatype LineParse = Entry(key: string, value: string) | NoSeparator | ExtraSeparator

  /** One line: strip the whitespace around it, cut it at the first
      separator, refuse a second one, then substitute and strip the value. */
  function ParseLine(line: string, client: Option<string>): LineParse
  {
    var t := Strip(line, Whitespace);
    match Find(t, Separator)
    case None => NoSeparator
    case Some(i) =>
      var raw := t[i + |Separator|..];
      if Contains(raw, Separator) then ExtraSeparator
      else Entry(t[..i], CleanValue(Substitute(raw, client)))
  }

  /** `ParseLine` is what `chave, valor = linha.strip().split(' = ')` does:
      one piece is a missing separator, more than two an extra one, and
      exactly two bind the first piece to the processed second piece. */
  lemma {:induction false} ParseLineIsSplitAndUnpack(line: string, client: Option<string>)
    ensures var parts := Split(Strip(line, Whitespace), Separator);
            && (ParseLine(line, client).NoSeparator? <==> |parts| < 2)
            && (ParseLine(line, client).ExtraSeparator? <==> |parts| > 2)
            && (|parts| == 2 ==>
                  ParseLine(line, client) == Entry(parts[0], CleanValue(Substitute(parts[1], client))))
  {
    var t := Strip(line, Whitespace);
    SplitPieces(t, Separator);
    match Find(t, Separator)
    case None =>
    case Some(i) =>
      var raw := t[i + |Separator|..];
      if !Contains(raw, Separator) {
        assert ParseLine(line, client) == Entry(t[..i], CleanValue(Substitute(raw, client)));
      }
  }

  /** The lines of a file, each parsed on its own. */
  function ParseAll(lines: seq<string>, client: Option<string>): (r: seq<LineParse>)
    ensures |r| == |lines|
  {
    seq(|lines|, i requires 0 <= i < |lines| => ParseLine(lines[i], client))
  }

  lemma {:induction false} ParseAllAt(lines: seq<string>, client: Option<string>, i: nat)
    requires i < |lines|
    ensures ParseAll(lines, client)[i] == ParseLine(lines[i], client)
  {
  }

  /** Folds parsed lines into the dictionary in order: the first malformed
      line makes the whole load fail, and a later binding of a key replaces
      an earlier one. */
  function Collect(parsed: seq<LineParse>): Result<map<string, string>, ParseError>
    decreases |parsed|
  {
    if parsed == [] then Success(map[])
    else
      match Collect(parsed[..|parsed| - 1])
      case Failure(e) => Failure(e)
      case Success(m) =>
        match parsed[|parsed| - 1]
        case NoSeparator => Failure(NotEnoughValues(|parsed| - 1))
        case ExtraSeparator => Failure(TooManyValues(|parsed| - 1))
        case Entry(k, v) => Success(m[k := v])
  }

  /** What `ler_credenciais` returns or raises for the lines of a file. */
  function Load(lines: seq<string>, client: Option<string>): Result<map<string, string>, ParseError>
  {
    Collect(ParseAll(lines, client))
  }

  /** The body of the loop in `ler_credenciais` for one line: strip it,
      split it on the separator, unpack the two pieces, substitute the client
      and strip quotes then braces from the value. */
  method ReadLine(line: string, client: Option<string>) returns (p: LineParse)
    ensures p == ParseLine(line, client)
  {
    var parts := Split(Strip(line, Whitespace), Separator);
    ParseLineIsSplitAndUnpack(line, client);
    if |parts| != 2 {
      return if |parts| < 2 then NoSeparator else ExtraSeparator;
    }
    var key, value := parts[0], parts[1];
    if Contains(value, Placeholder) && HasClient(client) {
      value := Replace(value, Placeholder, client.value);
    }
    p := Entry(key, Strip(Strip(value, Quote), Braces));
  }

  /** `ler_credenciais` over the lines the file yields: a loop that reads
      each line and stores its pair into the map, and stops at the first
      line that does not unpack. */
  method LoadCredentials(lines: seq<string>, client: Option<string>)
    returns (r: Result<map<string, string>, ParseError>)
    ensures r == Load(lines, client)
  {
    ghost var parsed := ParseAll(lines, client);
    var creds: map<string, string> := map[];
    var i := 0;
    while i < |lines|
      invariant 0 <= i <= |lines|
      invariant Collect(parsed[..i]) == Success(creds)
    {
      var line := lines[i];
      var p := ReadLine(line, client);
      ParseAllAt(lines, client, i);
      CollectNext(parsed, i, creds);
      if !p.Entry? {
        return Failure(if p.NoSeparator? then NotEnoughValues(i) else TooManyValues(i));
      }
      creds := creds[p.key := p.value];
      i := i + 1;
    }
    assert parsed[..i] == parsed;
    r := Success(creds);
  }

  /** One more line either adds its binding to the map so far or, when it
      is malformed, ends the load with its error. */
  lemma {:induction false} CollectNext(parsed: seq<LineParse>, i: nat, m: map<string, string>)
    requires i < |parsed| && Collect(parsed[..i]) == Success(m)
    ensures parsed[i].Entry? ==>
              Collect(parsed[..i + 1]) == Success(m[parsed[i].key := parsed[i].value])
    ensures !parsed[i].Entry? ==>
              Collect(parsed) ==
                Failure(if parsed[i].NoSeparator? then NotEnoughValues(i) else TooManyValues(i))
  {
    assert parsed[..i + 1][..i] == parsed[..i];
    if !parsed[i].Entry? {
      CollectKeepsFailure(parsed, i + 1);
      assert parsed[..|parsed|] == parsed;
    }
  }

  /** Once a prefix of the file fails, the whole file fails the same way. */
  lemma {:induction false} CollectKeepsFailure(parsed: seq<LineParse>, i: nat)
    requires i <= |parsed| && Collect(parsed[..i]).Failure?
    ensures Collect(parsed) == Collect(parsed[..i])
    decreases |parsed| - i
  {
    if i < |parsed| {
      var p := parsed[..i + 1];
      assert p[..|p| - 1] == parsed[..i];
      CollectKeepsFailure(parsed, i + 1);
    } else {
      assert parsed[..i] == parsed;
    }
  }

  /** Collecting fails exactly when some line is malformed, and then it
      reports the first malformed line and what is wrong with it. */
  lemma {:induction false} CollectFailsAtFirstMalformed(parsed: seq<LineParse>)
    ensures Collect(parsed).Failure? <==> exists i :: 0 <= i < |parsed| && !parsed[i].Entry?
    ensures Collect(parsed).Failure? ==>
              var e := Collect(parsed).error;
              && e.line < |parsed|
              && !parsed[e.line].Entry?
              && (e.NotEnoughValues? <==> parsed[e.line].NoSeparator?)
              && forall j :: 0 <= j < e.line ==> parsed[j].Entry?
    decreases |parsed|
  {
    if parsed != [] {
      var init := parsed[..|parsed| - 1];
      CollectFailsAtFirstMalformed(init);
      assert forall j :: 0 <= j < |init| ==> init[j] == parsed[j];
    }
  }

  /** The keys of a collected file are exactly the keys on its lines. */
  lemma {:induction false} CollectKeys(parsed: seq<LineParse>)
    requires Collect(parsed).Success?
    ensures forall i :: 0 <= i < |parsed| ==> parsed[i].Entry?
    ensures Collect(parsed).value.Keys == set i | 0 <= i < |parsed| :: parsed[i].key
    decreases |parsed|
  {
    CollectFailsAtFirstMalformed(parsed);
    if parsed != [] {
      var init := parsed[..|parsed| - 1];
      CollectKeys(init);
      assert forall j :: 0 <= j < |init| ==> init[j] == parsed[j];
      var n := |parsed| - 1;
      assert (set i | 0 <= i < |parsed| :: parsed[i].key)
          == (set i | 0 <= i < |init| :: init[i].key) + {parsed[n].key};
    }
  }

  /** A line whose key no later line repeats is the one whose value the
      collected map holds. */
  lemma {:induction false} CollectLastWins(parsed: seq<LineParse>, i: nat)
    requires Collect(parsed).Success? && i < |parsed| && parsed[i].Entry?
    requires forall j :: i < j < |parsed| ==> parsed[j].Entry? ==> parsed[j].key != parsed[i].key
    ensures parsed[i].key in Collect(parsed).value
    ensures Collect(parsed).value[parsed[i].key] == parsed[i].value
    decreases |parsed|
  {
    CollectKeys(parsed);
    var n := |parsed| - 1;
    if i < n {
      var init := parsed[..n];
      assert forall j :: 0 <= j < |init| ==> init[j] == parsed[j];
      CollectLastWins(init, i);
    }
  }

  /** The file fails to load exactly when one of its lines is malformed; the
      error names the first such line. */
  lemma {:induction false} LoadFailsAtFirstMalformed(lines: seq<string>, client: Option<string>)
    ensures Load(lines, client).Failure? <==>
              exists i :: 0 <= i < |lines| && !ParseLine(lines[i], client).Entry?
    ensures Load(lines, client).Failure? ==>
              var e := Load(lines, client).error;
              && e.line < |lines|
              && !ParseLine(lines[e.line], client).Entry?
              && (e.NotEnoughValues? <==> ParseLine(lines[e.line], client).NoSeparator?)
              && forall j :: 0 <= j < e.line ==> ParseLine(lines[j], client).Entry?
  {
    var parsed := ParseAll(lines, client);
    forall i | 0 <= i < |lines| ensures parsed[i] == ParseLine(lines[i], client) {
      ParseAllAt(lines, client, i);
    }
    CollectFailsAtFirstMalformed(parsed);
  }

  /** The keys of a loaded file are exactly the keys on its lines. */
  lemma {:induction false} LoadKeys(lines: seq<string>, client: Option<string>)
    requires Load(lines, client).Success?
    ensures forall i :: 0 <= i < |lines| ==> ParseLine(lines[i], client).Entry?
    ensures Load(lines, client).value.Keys ==
              set i | 0 <= i < |lines| :: ParseLine(lines[i], client).key
  {
    var parsed := ParseAll(lines, client);
    forall i | 0 <= i < |lines| ensures parsed[i] == ParseLine(lines[i], client) {
      ParseAllAt(lines, client, i);
    }
    CollectKeys(parsed);
    assert (set i | 0 <= i < |lines| :: ParseLine(lines[i], client).key)
        == (set i | 0 <= i < |parsed| :: parsed[i].key);
  }

  /** For a repeated key the value from its last line wins. */
  lemma {:induction false} LoadLastWins(lines: seq<string>, client: Option<string>, i: nat)
    requires Load(lines, client).Success? && i < |lines| && ParseLine(lines[i], client).Entry?
    requires forall j :: i < j < |lines| ==>
               ParseLine(lines[j], client).Entry? ==> ParseLine(lines[j], client).key != ParseLine(lines[i], client).key
    ensures ParseLine(lines[i], client).key in Load(lines, client).value
    ensures Load(lines, client).value[ParseLine(lines[i], client).key] == ParseLine(lines[i], client).value
  {
    var parsed := ParseAll(lines, client);
    forall j | 0 <= j < |lines| ensures parsed[j] == ParseLine(lines[j], client) {
      ParseAllAt(lines, client, j);
    }
    CollectLastWins(parsed, i);
  }

  /** A line that is `k = raw` once its surrounding whitespace is gone, with
      no other separator in it, binds `k` to `raw` after substitution and
      stripping. */
  lemma {:induction false} WellFormedLine(line: string, k: string, raw: string, client: Option<string>)
    requires Strip(line, Whitespace) == k + Separator + raw
    requires !Contains(k + " =", Separator) && !Contains(raw, Separator)
    ensures ParseLine(line, client) == Entry(k, CleanValue(Substitute(raw, client)))
  {
    var s := k + Separator + raw;
    ContainsIff(k + " =", Separator);
    forall j | 0 <= j < |k| ensures !OccursAt(s, Separator, j) {
      if OccursAt(s, Separator, j) {
        assert s[j..j + 3] == (k + " =")[j..j + 3];
        assert OccursAt(k + " =", Separator, j);
      }
    }
    FindAfterFreePrefix(k, Separator, raw);
    assert s[..|k|] == k;
    assert s[|k| + 3..] == raw;
  }

  /** A blank line (only whitespace) is malformed, so a file holding one
      fails to load. */
  lemma {:induction false} BlankLineIsMalformed(line: string, lines: seq<string>, client: Option<string>)
    requires forall k :: 0 <= k < |line| ==> IsPySpace(line[k])
    requires line in lines
    ensures ParseLine(line, client) == NoSeparator
    ensures Load(lines, client).Failure?
  {
    StripSpec(line, Whitespace);
    assert Strip(line, Whitespace) == "";
    LoadFailsAtFirstMalformed(lines, client);
  }
}
