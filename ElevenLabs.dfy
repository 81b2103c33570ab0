/** The ElevenLabs text-to-speech provider: the voice-spec parser
    (`parse_voice`), the merge of parsed overrides into the provider's voice
    settings (`generate_audio`) and the list of supported SSML tags. */
module ElevenLabs {
  import opened PyStr

  datatype Option<T> = None | Some(value: T)

  // ---------------------------------------------------------------------------
  // parse_voice
  // ---------------------------------------------------------------------------

  /** What `parse_voice` gives back: the voice name and the parameter
      dictionary, or the `IndexError` that `v[1]` raises on a segment with
      no `=`. */
  datatype ParseResult = Parsed(name: string, params: map<string, string>) | IndexError

  /** The spec after every space and every `)` has been deleted. */
  function Clean(voice: string): (r: string)
    ensures ' ' !in r && ')' !in r
  {
    RemoveAllKeeps(RemoveAll(voice, ' '), ')', ' ');
    RemoveAll(RemoveAll(voice, ' '), ')')
  }

  /** The `key=value` segments the loop walks over: the text between the
      first and the second `(` split at `,`, or the whole cleaned spec when
      it has no `(`. */
  function Segments(voice: string): (segs: seq<string>)
    ensures '(' in Clean(voice) ==> segs == Split(Before(After(Clean(voice), '('), '('), ',')
    ensures '(' !in Clean(voice) ==> segs == [Clean(voice)]
  {
    var parts := Split(Clean(voice), '(');
    if '(' in Clean(voice) then SplitSecond(Clean(voice), '('); Split(parts[1], ',') else parts
  }

  /** The dictionary key of a segment, `v[0]` of `v = segment.split('=')`:
      the text before its first `=`. */
  function Key(seg: string): (k: string)
    ensures k == Split(seg, '=')[0]
    ensures '=' !in k && k <= seg
  {
    Before(seg, '=')
  }

  /** The dictionary value of a segment, `v[1]` of `v = segment.split('=')`:
      the text between its first and second `=`. */
  function Value(seg: string): (v: string)
    requires '=' in seg
    ensures |Split(seg, '=')| >= 2 && v == Split(seg, '=')[1]
    ensures '=' !in v
  {
    SplitSecond(seg, '=');
    Before(After(seg, '='), '=')
  }

  /** No later segment has the same key as segment `i`. */
  predicate IsLastKey(segs: seq<string>, i: nat)
    requires i < |segs|
  {
    forall j :: i < j < |segs| ==> Key(segs[j]) != Key(segs[i])
  }

  /** The dictionary the loop builds from `segs`, one `voice_dict[v[0]] = v[1]`
      per segment in order, or `None` when some `v[1]` is out of range.
      `FillFails`, `FillKeys` and `FillLastWins` fix its meaning. */
  function Fill(segs: seq<string>): (r: Option<map<string, string>>)
    ensures r.Some? ==> forall i :: 0 <= i < |segs| ==> '=' in segs[i]
  {
    if segs == [] then Some(map[])
    else
      var kv := Split(segs[|segs| - 1], '=');
      match Fill(segs[..|segs| - 1])
      case None => None
      case Some(d) => if |kv| < 2 then None else Some(d[kv[0] := kv[1]])
  }

  /** `parse_voice` as a function of its input. */
  function ParseSpec(voice: string): (r: ParseResult)
    ensures r.Parsed? ==> r.name == Before(Clean(voice), '(')
  {
    var parts := Split(Clean(voice), '(');
    match Fill(Segments(voice))
    case None => IndexError
    case Some(d) => Parsed(parts[0], d)
  }

  /** `parse_voice`: rewrite the spec step by step, then fill the dictionary
      segment by segment. */
  method ParseVoice(voice: string) returns (r: ParseResult)
    ensures r == ParseSpec(voice)
  {
    var cleaned := RemoveAll(voice, ' ');
    cleaned := RemoveAll(cleaned, ')');
    var parts := Split(cleaned, '(');
    var voiceName := parts[0];
    var segments := parts;
    if |parts| > 1 {
      segments := Split(parts[1], ',');
    }
    assert segments == Segments(voice);
    var voiceDict: map<string, string> := map[];
    var i := 0;
    while i < |segments|
      invariant 0 <= i <= |segments|
      invariant Fill(segments[..i]) == Some(voiceDict)
    {
      var kv := Split(segments[i], '=');
      FillStep(segments, i);
      if |kv| < 2 {
        FillPrefixFails(segments, i + 1);
        return IndexError;
      }
      voiceDict := voiceDict[kv[0] := kv[1]];
      i := i + 1;
    }
    assert segments[..i] == segments;
    r := Parsed(voiceName, voiceDict);
  }

  /** One more turn of the loop over the segments. */
  lemma FillStep(segs: seq<string>, i: nat)
    requires i < |segs| && Fill(segs[..i]).Some?
    ensures var kv := Split(segs[i], '=');
      Fill(segs[..i + 1]) == if |kv| < 2 then None else Some(Fill(segs[..i]).value[kv[0] := kv[1]])
  {
    assert segs[..i + 1][..i] == segs[..i];
  }

  /** Once a prefix of the segments fails, the whole loop fails. */
  lemma {:induction false} FillPrefixFails(segs: seq<string>, n: nat)
    requires n <= |segs| && Fill(segs[..n]) == None
    ensures Fill(segs) == None
    decreases |segs| - n
  {
    if n < |segs| {
      assert segs[..n + 1][..n] == segs[..n];
      FillPrefixFails(segs, n + 1);
    } else {
      assert segs[..n] == segs;
    }
  }

  /** A segment splits into at least two pieces at `=` exactly when it holds an `=`. */
  lemma SplitEqualsPieces(seg: string)
    ensures |Split(seg, '=')| >= 2 <==> '=' in seg
  {
    if '=' in seg {
      SplitSecond(seg, '=');
    }
  }

  /** The loop fails exactly when some segment has no `=`. */
  lemma {:induction false} FillFails(segs: seq<string>)
    ensures Fill(segs).None? <==> exists i :: 0 <= i < |segs| && '=' !in segs[i]
    decreases |segs|
  {
    if segs != [] {
      var init := segs[..|segs| - 1];
      FillFails(init);
      SplitEqualsPieces(segs[|segs| - 1]);
      if exists i :: 0 <= i < |init| && '=' !in init[i] {
        var i :| 0 <= i < |init| && '=' !in init[i];
        assert segs[i] == init[i];
      }
      if exists i :: 0 <= i < |segs| && '=' !in segs[i] {
        var i :| 0 <= i < |segs| && '=' !in segs[i];
        if i < |init| {
          assert init[i] == segs[i];
        }
      }
    }
  }

  /** The keys of a list of segments. */
  function SegmentKeys(segs: seq<string>): set<string>
  {
    set i | 0 <= i < |segs| :: Key(segs[i])
  }

  /** Appending a segment adds its key. */
  lemma SegmentKeysSnoc(segs: seq<string>)
    requires segs != []
    ensures SegmentKeys(segs) == SegmentKeys(segs[..|segs| - 1]) + {Key(segs[|segs| - 1])}
  {
    var n := |segs| - 1;
    var init := segs[..n];
    forall k | k in SegmentKeys(segs) ensures k in SegmentKeys(init) + {Key(segs[n])} {
      var i :| 0 <= i < |segs| && Key(segs[i]) == k;
      if i < n {
        assert init[i] == segs[i];
      }
    }
    forall k | k in SegmentKeys(init) + {Key(segs[n])} ensures k in SegmentKeys(segs) {
      if k != Key(segs[n]) {
        var i :| 0 <= i < |init| && Key(init[i]) == k;
        assert segs[i] == init[i];
      }
    }
  }

  /** The keys of the dictionary are exactly the keys of the segments. */
  lemma {:induction false} FillKeys(segs: seq<string>)
    requires Fill(segs).Some?
    ensures Fill(segs).value.Keys == SegmentKeys(segs)
    decreases |segs|
  {
    if segs != [] {
      var n := |segs| - 1;
      FillKeys(segs[..n]);
      SegmentKeysSnoc(segs);
      assert Split(segs[n], '=')[0] == Key(segs[n]);
    }
  }

  /** For a repeated key the value of its last segment wins. */
  lemma {:induction false} FillLastWins(segs: seq<string>)
    requires Fill(segs).Some?
    ensures forall i | 0 <= i < |segs| && IsLastKey(segs, i) ::
              '=' in segs[i] && Key(segs[i]) in Fill(segs).value && Fill(segs).value[Key(segs[i])] == Value(segs[i])
    decreases |segs|
  {
    if segs != [] {
      var n := |segs| - 1;
      var init := segs[..n];
      FillLastWins(init);
      var d := Fill(init).value;
      var kv := Split(segs[n], '=');
      SplitSecond(segs[n], '=');
      forall i | 0 <= i < |segs| && IsLastKey(segs, i)
        ensures '=' in segs[i] && Key(segs[i]) in Fill(segs).value && Fill(segs).value[Key(segs[i])] == Value(segs[i])
      {
        if i < n {
          assert init[i] == segs[i];
          assert IsLastKey(init, i) by {
            forall j | i < j < |init| ensures Key(init[j]) != Key(init[i]) {
              assert init[j] == segs[j];
            }
          }
        }
      }
    }
  }

  /** Keys and values of the dictionary never contain `=`, nor any character
      that no segment contains. */
  lemma {:induction false} FillExcludes(segs: seq<string>, x: char)
    requires Fill(segs).Some?
    requires x == '=' || forall i :: 0 <= i < |segs| ==> x !in segs[i]
    ensures forall k | k in Fill(segs).value :: x !in k && x !in Fill(segs).value[k]
    decreases |segs|
  {
    if segs != [] {
      var n := |segs| - 1;
      var init := segs[..n];
      if x != '=' {
        forall i | 0 <= i < |init| ensures x !in init[i] {
          assert init[i] == segs[i];
        }
      }
      FillExcludes(init, x);
      var kv := Split(segs[n], '=');
      SplitPiecesExcludeSeparator(segs[n], '=');
      if x != '=' {
        SplitPiecesExclude(segs[n], '=', x);
      }
    }
  }

  /** The loop fails exactly when some segment has no `=`; in particular a
      spec with no `(` fails unless its name holds an `=`. */
  lemma ParseFailsIff(voice: string)
    ensures ParseSpec(voice).IndexError? <==> exists i :: 0 <= i < |Segments(voice)| && '=' !in Segments(voice)[i]
  {
    FillFails(Segments(voice));
  }

  /** Every segment is free of spaces, `)` and `(`. */
  lemma SegmentsExclude(voice: string, x: char)
    requires x == ' ' || x == ')' || x == '('
    ensures forall i :: 0 <= i < |Segments(voice)| ==> x !in Segments(voice)[i]
  {
    var c := Clean(voice);
    if '(' in c {
      var p := After(c, '(');
      var between := Before(p, '(');
      if x != '(' {
        assert x !in p by { assert c == Before(c, '(') + ['('] + p; }
        assert x !in between;
      }
      SplitPiecesExclude(between, ',', x);
    }
  }

  /** A parsed name, key or value never holds a space or a parenthesis, and
      a key or value never holds an `=`. */
  lemma ParseNoSeparators(voice: string)
    requires ParseSpec(voice).Parsed?
    ensures var r := ParseSpec(voice);
      ' ' !in r.name && ')' !in r.name && '(' !in r.name &&
      forall k | k in r.params ::
        ' ' !in k && ')' !in k && '(' !in k && '=' !in k &&
        ' ' !in r.params[k] && ')' !in r.params[k] && '(' !in r.params[k] && '=' !in r.params[k]
  {
    var segs := Segments(voice);
    SegmentsExclude(voice, ' ');
    SegmentsExclude(voice, ')');
    SegmentsExclude(voice, '(');
    FillExcludes(segs, ' ');
    FillExcludes(segs, ')');
    FillExcludes(segs, '(');
    FillExcludes(segs, '=');
  }

  /** A bare voice name without `=` is its own only segment, so the loop
      raises `IndexError` (`"Alice"` fails). */
  lemma ParseBareNameFails(name: string)
    requires ' ' !in name && ')' !in name && '(' !in name && '=' !in name
    ensures ParseSpec(name) == IndexError
  {
    RemoveAllAbsent(name, ' ');
    RemoveAllAbsent(name, ')');
    assert Segments(name)[0] == name;
    ParseFailsIff(name);
  }

  /** An empty parameter list leaves one empty segment, which has no `=`
      (`"Name()"` fails). */
  lemma ParseEmptyListFails(name: string)
    requires ' ' !in name && ')' !in name && '(' !in name
    ensures ParseSpec(name + "()") == IndexError
  {
    SegmentsOfList(name, [""]);
    assert Join([""], ",") == "";
    assert name + "()" == name + "(" + Join([""], ",") + ")";
    assert '=' !in Segments(name + "()")[0];
    ParseFailsIff(name + "()");
  }

  /** With no `(`, a `key=value` spec is both the name and the only entry
      (`"a=b"` gives `("a=b", {"a": "b"})`). */
  lemma ParseBarePair(k: string, v: string)
    requires Plain(k) && Plain(v)
    ensures ParseSpec(k + "=" + v) == Parsed(k + "=" + v, map[k := v])
  {
    var voice := k + "=" + v;
    RemoveAllAbsent(voice, ' ');
    RemoveAllAbsent(voice, ')');
    assert Segments(voice) == [voice];
    assert Join([k, v], "=") == voice;
    JoinSplit([k, v], '=');
    assert [voice][..0] == [] && [voice][..1] == [voice];
    FillStep([voice], 0);
  }

  /** Spaces anywhere in the spec are ignored. */
  lemma ParseIgnoresSpaces(voice: string)
    ensures ParseSpec(voice) == ParseSpec(RemoveAll(voice, ' '))
  {
    RemoveAllAbsent(RemoveAll(voice, ' '), ' ');
    assert Clean(voice) == Clean(RemoveAll(voice, ' '));
  }

  /** Every `)` is ignored, wherever it stands. */
  lemma ParseIgnoresClosingParens(voice: string)
    ensures ParseSpec(voice) == ParseSpec(RemoveAll(voice, ')'))
  {
    var w := RemoveAll(voice, ')');
    RemoveAllCommutes(w, ' ', ')');
    RemoveAllKeeps(w, ' ', ')');
    RemoveAllAbsent(RemoveAll(w, ' '), ')');
    RemoveAllCommutes(voice, ' ', ')');
    RemoveAllAbsent(w, ')');
    assert Clean(voice) == Clean(w);
  }

  /** Free of every character the parser treats specially. */
  predicate Plain(s: string)
  {
    ' ' !in s && ')' !in s && '(' !in s && ',' !in s && '=' !in s
  }

  /** The `key=value` segments of a parameter list. */
  function Entries(pairs: seq<(string, string)>): (segs: seq<string>)
    ensures |segs| == |pairs|
  {
    seq(|pairs|, i requires 0 <= i < |pairs| => pairs[i].0 + "=" + pairs[i].1)
  }

  /** A voice spec in the form `name(k1=v1,k2=v2,...)`. */
  function Render(name: string, pairs: seq<(string, string)>): string
  {
    name + "(" + Join(Entries(pairs), ",") + ")"
  }

  /** The dictionary a parameter list denotes: entries in order, a later key replacing an earlier one. */
  function ToMap(pairs: seq<(string, string)>): map<string, string>
  {
    if pairs == [] then map[]
    else ToMap(pairs[..|pairs| - 1])[pairs[|pairs| - 1].0 := pairs[|pairs| - 1].1]
  }

  /** The loop builds `ToMap` from the segments of a rendered parameter list. */
  lemma {:induction false} FillEntries(pairs: seq<(string, string)>)
    requires forall i :: 0 <= i < |pairs| ==> '=' !in pairs[i].0 && '=' !in pairs[i].1
    ensures Fill(Entries(pairs)) == Some(ToMap(pairs))
    decreases |pairs|
  {
    if pairs != [] {
      var n := |pairs| - 1;
      var segs := Entries(pairs);
      var k, v := pairs[n].0, pairs[n].1;
      assert segs[..n] == Entries(pairs[..n]);
      FillEntries(pairs[..n]);
      assert Join([k, v], "=") == segs[n];
      JoinSplit([k, v], '=');
      assert Split(segs[n], '=') == [k, v];
      FillStep(segs, n);
      assert segs[..n + 1] == segs;
    }
  }

  /** In a spec `name(list)` whose parts hold no space, parenthesis or
      (in the list) comma, the name is `name` and the segments are the
      comma-separated pieces of `list`. */
  lemma {:induction false} SegmentsOfList(name: string, segs: seq<string>)
    requires ' ' !in name && ')' !in name && '(' !in name
    requires |segs| >= 1
    requires forall i :: 0 <= i < |segs| ==> ' ' !in segs[i] && ')' !in segs[i] && '(' !in segs[i] && ',' !in segs[i]
    ensures var voice := name + "(" + Join(segs, ",") + ")";
      Before(Clean(voice), '(') == name && Segments(voice) == segs
  {
    var list := Join(segs, ",");
    var voice := name + "(" + list + ")";
    JoinExcludes(segs, ',', ' ');
    JoinExcludes(segs, ',', ')');
    JoinExcludes(segs, ',', '(');
    var open := name + "(" + list;
    assert voice == open + ")";
    RemoveAllAbsent(voice, ' ');
    RemoveAllConcat(open, ")", ')');
    RemoveAllAbsent(open, ')');
    assert RemoveAll(")", ')') == [];
    assert Clean(voice) == name + ['('] + list;
    BeforeAfterConcat(name, '(', list);
    assert Before(list, '(') == list;
    JoinSplit(segs, ',');
  }

  /** Parsing a rendered spec gives back its name and its parameters: the
      list is split at commas, each entry at its `=`, and the closing `)` is
      dropped. */
  lemma {:induction false} ParseRender(name: string, pairs: seq<(string, string)>)
    requires ' ' !in name && ')' !in name && '(' !in name
    requires |pairs| >= 1
    requires forall i :: 0 <= i < |pairs| ==> Plain(pairs[i].0) && Plain(pairs[i].1)
    ensures ParseSpec(Render(name, pairs)) == Parsed(name, ToMap(pairs))
  {
    var segs := Entries(pairs);
    forall i | 0 <= i < |segs|
      ensures ' ' !in segs[i] && ')' !in segs[i] && '(' !in segs[i] && ',' !in segs[i]
    {
      assert segs[i] == pairs[i].0 + "=" + pairs[i].1;
    }
    SegmentsOfList(name, segs);
    FillEntries(pairs);
  }

  /** A spec whose parameter list is the one segment `seg` parses to the
      segment's key and value. */
  lemma ParseOneSegment(name: string, seg: string)
    requires ' ' !in name && ')' !in name && '(' !in name
    requires ' ' !in seg && ')' !in seg && '(' !in seg && ',' !in seg && '=' in seg
    ensures ParseSpec(name + "(" + seg + ")") == Parsed(name, map[Key(seg) := Value(seg)])
  {
    assert Join([seg], ",") == seg;
    SegmentsOfList(name, [seg]);
    assert [seg][..0] == [] && [seg][..1] == [seg];
    FillStep([seg], 0);
    SplitSecond(seg, '=');
  }

  /** A `|` is no separator: a spec written `name(k1=v1|k2=v2)` has one
      segment, whose value runs from the first `=` to the second and so
      swallows the `|` and the second key. */
  lemma ParsePipeIsNoSeparator(name: string, k1: string, v1: string, k2: string, v2: string)
    requires ' ' !in name && ')' !in name && '(' !in name
    requires Plain(k1) && Plain(v1) && Plain(k2) && Plain(v2)
    ensures ParseSpec(name + "(" + (k1 + "=" + v1 + "|" + k2 + "=" + v2) + ")") == Parsed(name, map[k1 := v1 + "|" + k2])
  {
    var value := v1 + "|" + k2;
    var seg := k1 + "=" + v1 + "|" + k2 + "=" + v2;
    assert Split(seg, '=') == [k1, value, v2] by {
      JoinThree(k1, value, v2, "=");
      assert k1 + "=" + value == k1 + "=" + v1 + "|" + k2;
      JoinSplit([k1, value, v2], '=');
    }
    assert ' ' !in seg && ')' !in seg && '(' !in seg && ',' !in seg;
    SplitSecond(seg, '=');
    ParseOneSegment(name, seg);
  }

  // ---------------------------------------------------------------------------
  // Voice settings and their overrides (generate_audio)
  // ---------------------------------------------------------------------------

  /** The five settings keys `generate_audio` looks for. */
  const SettingKeys: set<string> := {"stability", "similarity_boost", "style", "use_speaker_boost", "speed"}

  /** One value per voice setting. */
  datatype Fields<V> = Fields(stability: V, similarityBoost: V, style: V, useSpeakerBoost: V, speed: V)

  /** A setting either still holds the provider's default or has been
      overwritten by the raw string parsed from the voice spec. */
  datatype Setting<D> = ProviderDefault(value: D) | Override(text: string)

  /** The field a settings key names, or `None` for any other key. */
  function Lookup<V>(f: Fields<V>, key: string): (r: Option<V>)
    ensures r.Some? <==> key in SettingKeys
  {
    if key == "stability" then Some(f.stability)
    else if key == "similarity_boost" then Some(f.similarityBoost)
    else if key == "style" then Some(f.style)
    else if key == "use_speaker_boost" then Some(f.useSpeakerBoost)
    else if key == "speed" then Some(f.speed)
    else None
  }

  /** The settings object the provider hands back, before any override. */
  function FromProvider<D>(defaults: Fields<D>): (r: Fields<Setting<D>>)
    ensures forall k | k in SettingKeys :: Lookup(r, k) == Some(ProviderDefault(Lookup(defaults, k).value))
  {
    Fields(ProviderDefault(defaults.stability), ProviderDefault(defaults.similarityBoost),
           ProviderDefault(defaults.style), ProviderDefault(defaults.useSpeakerBoost),
           ProviderDefault(defaults.speed))
  }

  /** The five guarded assignments of `generate_audio`, applied to a snapshot. */
  function WithOverrides<D>(s: Fields<Setting<D>>, overrides: map<string, string>): (r: Fields<Setting<D>>)
    ensures forall k | k in SettingKeys :: Lookup(r, k) == if k in overrides then Some(Override(overrides[k])) else Lookup(s, k)
  {
    var s := if "stability" in overrides then s.(stability := Override(overrides["stability"])) else s;
    var s := if "similarity_boost" in overrides then s.(similarityBoost := Override(overrides["similarity_boost"])) else s;
    var s := if "style" in overrides then s.(style := Override(overrides["style"])) else s;
    var s := if "use_speaker_boost" in overrides then s.(useSpeakerBoost := Override(overrides["use_speaker_boost"])) else s;
    if "speed" in overrides then s.(speed := Override(overrides["speed"])) else s
  }

  /** Two settings records are equal when every settings key reads the same from both. */
  lemma FieldsEqual<V>(a: Fields<V>, b: Fields<V>)
    requires forall k | k in SettingKeys :: Lookup(a, k) == Lookup(b, k)
    ensures a == b
  {
    assert Lookup(a, "stability") == Lookup(b, "stability");
    assert Lookup(a, "similarity_boost") == Lookup(b, "similarity_boost");
    assert Lookup(a, "style") == Lookup(b, "style");
    assert Lookup(a, "use_speaker_boost") == Lookup(b, "use_speaker_boost");
    assert Lookup(a, "speed") == Lookup(b, "speed");
  }

  /** Keys other than the five settings keys change nothing. */
  lemma OverridesIgnoreUnknownKeys<D>(s: Fields<Setting<D>>, overrides: map<string, string>)
    ensures WithOverrides(s, overrides) == WithOverrides(s, map k | k in overrides && k in SettingKeys :: overrides[k])
    ensures overrides.Keys !! SettingKeys ==> WithOverrides(s, overrides) == s
  {
    var known := map k | k in overrides && k in SettingKeys :: overrides[k];
    FieldsEqual(WithOverrides(s, overrides), WithOverrides(s, known));
    if overrides.Keys !! SettingKeys {
      FieldsEqual(WithOverrides(s, overrides), s);
    }
  }

  /** Applying the same overrides twice is the same as applying them once. */
  lemma OverridesIdempotent<D>(s: Fields<Setting<D>>, overrides: map<string, string>)
    ensures WithOverrides(WithOverrides(s, overrides), overrides) == WithOverrides(s, overrides)
  {
    FieldsEqual(WithOverrides(WithOverrides(s, overrides), overrides), WithOverrides(s, overrides));
  }

  /** The settings object that `get_voice` returns and `generate_audio`
      overwrites field by field. */
  class VoiceSettings<D> {
    var stability: Setting<D>
    var similarityBoost: Setting<D>
    var style: Setting<D>
    var useSpeakerBoost: Setting<D>
    var speed: Setting<D>

    /** The current values of the five fields. */
    function Snapshot(): Fields<Setting<D>>
      reads this
    {
      Fields(stability, similarityBoost, style, useSpeakerBoost, speed)
    }

    /** The provider's settings for a voice, every field at its default. */
    constructor (defaults: Fields<D>)
      ensures Snapshot() == FromProvider(defaults)
    {
      stability := ProviderDefault(defaults.stability);
      similarityBoost := ProviderDefault(defaults.similarityBoost);
      style := ProviderDefault(defaults.style);
      useSpeakerBoost := ProviderDefault(defaults.useSpeakerBoost);
      speed := ProviderDefault(defaults.speed);
    }

    /** Overwrite each field whose key the parsed dictionary holds. */
    method ApplyOverrides(overrides: map<string, string>)
      modifies this
      ensures Snapshot() == WithOverrides(old(Snapshot()), overrides)
    {
      if "stability" in overrides {
        stability := Override(overrides["stability"]);
      }
      if "similarity_boost" in overrides {
        similarityBoost := Override(overrides["similarity_boost"]);
      }
      if "style" in overrides {
        style := Override(overrides["style"]);
      }
      if "use_speaker_boost" in overrides {
        useSpeakerBoost := Override(overrides["use_speaker_boost"]);
      }
      if "speed" in overrides {
        speed := Override(overrides["speed"]);
      }
    }
  }

  // ---------------------------------------------------------------------------
  // generate_audio
  // ---------------------------------------------------------------------------

  /** The call `generate_audio` would make to the provider, with the voice
      given by the id it was looked up with rather than by the voice object
      that `get_voice` returns. */
  datatype Request<D> = Request(text: string, voiceId: string, settings: Fields<Setting<D>>, model: string)

  /** The audio returned together with the request it would send, or the
      `IndexError` that `parse_voice` raises. */
  datatype Generated<D> = Audio(bytes: seq<bv8>, request: Request<D>) | IndexErrorRaised

  /** `generate_audio`, with the provider's voice lookup `get_voice` given as
      `getVoice`. It parses first, so a spec that does not parse never
      reaches the lookup; otherwise it looks up the parsed name, merges the
      overrides and returns no audio. */
  method GenerateAudio<D>(text: string, voice: string, model: string, getVoice: string -> Fields<D>)
    returns (r: Generated<D>)
    ensures r.IndexErrorRaised? <==> ParseSpec(voice).IndexError?
    ensures r.Audio? ==> r.bytes == [] && r.request.text == text && r.request.model == model
    ensures r.Audio? ==> r.request.voiceId == Before(Clean(voice), '(')
    ensures r.Audio? ==> forall k | k in SettingKeys ::
              Lookup(r.request.settings, k) ==
                if k in ParseSpec(voice).params then Some(Override(ParseSpec(voice).params[k]))
                else Some(ProviderDefault(Lookup(getVoice(r.request.voiceId), k).value))
  {
    var parsed := ParseVoice(voice);
    if parsed.IndexError? {
      return IndexErrorRaised;
    }
    var settings := new VoiceSettings(getVoice(parsed.name));
    settings.ApplyOverrides(parsed.params);
    r := Audio([], Request(text, parsed.name, settings.Snapshot(), model));
  }

  // ---------------------------------------------------------------------------
  // get_supported_tags
  // ---------------------------------------------------------------------------

  /** Strict lexicographic order on strings. */
  predicate LexLess(a: string, b: string)
  {
    |b| > 0 && (|a| == 0 || a[0] < b[0] || (a[0] == b[0] && LexLess(a[1..], b[1..])))
  }

  /** The SSML tags the provider accepts: five tags, listed once each in
      alphabetical order. */
  function SupportedTags(): (tags: seq<string>)
    ensures |tags| == 5
    ensures forall i, j :: 0 <= i < j < |tags| ==> LexLess(tags[i], tags[j])
    ensures forall t :: t in tags <==> t in {"lang", "p", "phoneme", "s", "sub"}
  {
    ["lang", "p", "phoneme", "s", "sub"]
  }
}
