/** `convertor_audio/generador.py`: `Generador.generar` walks the token
    records and yields a voice fragment for each block of words and a
    silence for each timed pause; `GTTS._generar_fragmento_audio` maps the
    block's language to a gTTS code and cleans the text it speaks. The
    yielded fragments are modelled as the sequence the generator produces;
    the fragment generator of the concrete engine is a parameter. */
module FragmentGenerator {
  import opened Base
  import opened Text
  import AudioBatching

  /** A token record: `token`, `idioma` and the optional `tiempo_silencio`. */
  datatype TokenData = TokenData(token: string, idioma: Option<string>, tiempoSilencio: Option<int>)

  /** A yielded pair: a voice fragment (with the block and language it was
      generated from) or a silence, each with its file name. */
  datatype Fragment =
    | Voice(clip: AudioBatching.Clip, nombre: string, palabras: seq<string>, idioma: Option<string>)
    | Pause(ms: int, nombre: string)

  /** `_generar_fragmento_audio`: `None` stands for a falsy audio value. */
  type Fragmenter = (seq<string>, Option<string>) -> Option<(AudioBatching.Clip, string)>

  // ----- Names of silence fragments -----

  function Digit(d: nat): char
    requires d < 10
  {
    "0123456789"[d]
  }

  predicate IsDigit(c: char)
  {
    '0' <= c <= '9'
  }

  /** The decimal digits of `n`, most significant first, no leading zero. */
  function NatDigits(n: nat): (r: string)
    ensures |r| > 0 && forall i :: 0 <= i < |r| ==> IsDigit(r[i])
    ensures |r| > 1 ==> r[0] != '0'
  {
    if n < 10 then [Digit(n)] else NatDigits(n / 10) + [Digit(n % 10)]
  }

  /** The number a string of digits denotes. */
  function DigitsValue(s: string): nat
    requires forall i :: 0 <= i < |s| ==> IsDigit(s[i])
  {
    if s == [] then 0
    else
      assert IsDigit(s[|s| - 1]);
      DigitsValue(s[..|s| - 1]) * 10 + ((s[|s| - 1] as int) - ('0' as int))
  }

  /** Reading the digits back gives the number. */
  lemma {:induction false} DigitsRoundTrip(n: nat)
    ensures DigitsValue(NatDigits(n)) == n
  {
    if n >= 10 {
      DigitsRoundTrip(n / 10);
      var r := NatDigits(n);
      assert r[..|r| - 1] == NatDigits(n / 10);
    }
  }

  /** `str(n)` of an integer. */
  function DecimalString(n: int): (r: string)
  {
    if n < 0 then "-" + NatDigits(-n) else NatDigits(n)
  }

  /** A decimal string starts with a minus sign exactly for a negative
      number, followed by the digits of its magnitude. */
  lemma DecimalStringSign(n: int)
    ensures var r := DecimalString(n);
            |r| > 0 && (n < 0 <==> r[0] == '-')
            && (n < 0 ==> r[1..] == NatDigits(-n)) && (n >= 0 ==> r == NatDigits(n))
  {
    if n >= 0 {
      assert IsDigit(NatDigits(n)[0]);
    }
  }

  /** Different integers have different decimal strings. */
  lemma DecimalStringInjective(a: int, b: int)
    requires DecimalString(a) == DecimalString(b)
    ensures a == b
  {
    DecimalStringSign(a);
    DecimalStringSign(b);
    var r := DecimalString(a);
    if a < 0 {
      assert b < 0 && NatDigits(-a) == r[1..] == NatDigits(-b);
      NatDigitsInjective(-a, -b);
    } else {
      assert b >= 0 && NatDigits(a) == r == NatDigits(b);
      NatDigitsInjective(a, b);
    }
  }

  lemma NatDigitsInjective(m: nat, n: nat)
    requires NatDigits(m) == NatDigits(n)
    ensures m == n
  {
    DigitsRoundTrip(m);
    DigitsRoundTrip(n);
  }

  /** `f"silencio_{tiempo_silencio}ms"`. */
  function PauseName(t: int): (r: string)
    ensures StartsWith(r, "silencio_") && EndsWith(r, "ms")
  {
    "silencio_" + DecimalString(t) + "ms"
  }

  /** Distinct pause lengths give distinct names. */
  lemma PauseNamesDistinct(a: int, b: int)
    requires a != b
    ensures PauseName(a) != PauseName(b)
  {
    if PauseName(a) == PauseName(b) {
      var da, db := DecimalString(a), DecimalString(b);
      assert |da| == |db|;
      assert da == PauseName(a)[9..9 + |da|];
      assert db == PauseName(b)[9..9 + |db|];
      DecimalStringInjective(a, b);
    }
  }

  // ----- The generator loop -----

  /** `idioma is None and tiempo_silencio`: a pause with a non-zero time. */
  predicate IsTimedPause(t: TokenData)
  {
    t.idioma.None? && t.tiempoSilencio.Some? && t.tiempoSilencio.value != 0
  }

  /** A truthy `idioma_actual`: set and non-empty. */
  predicate LanguageSet(idioma: Option<string>)
  {
    idioma.Some? && idioma.value != ""
  }

  /** The generator's local state and what it has yielded so far. */
  datatype Gen = Gen(out: seq<Fragment>, bloque: seq<string>, actual: Option<string>)

  /** Closing a non-empty block: one voice fragment unless the engine gave
      no audio. */
  function Flush(out: seq<Fragment>, bloque: seq<string>, idioma: Option<string>, f: Fragmenter): seq<Fragment>
  {
    if bloque == [] then out
    else match f(bloque, idioma)
      case None => out
      case Some((audio, nombre)) => out + [Voice(audio, nombre, bloque, idioma)]
  }

  /** One iteration of `generar`. */
  function Step(st: Gen, t: TokenData, f: Fragmenter): Gen
  {
    if IsTimedPause(t) then
      var ms := t.tiempoSilencio.value;
      Gen(Flush(st.out, st.bloque, st.actual, f) + [Pause(ms, PauseName(ms))], [], st.actual)
    else if LanguageSet(st.actual) && t.idioma != st.actual && st.bloque != [] then
      Gen(Flush(st.out, st.bloque, st.actual, f), [t.token], t.idioma)
    else
      Gen(st.out, st.bloque + [t.token], t.idioma)
  }

  function Feed(ts: seq<TokenData>, f: Fragmenter): Gen
  {
    if ts == [] then Gen([], [], None)
    else Step(Feed(ts[..|ts| - 1], f), ts[|ts| - 1], f)
  }

  /** Everything `generar` yields: the loop, then the last block. */
  function Generated(ts: seq<TokenData>, f: Fragmenter): seq<Fragment>
  {
    var st := Feed(ts, f);
    Flush(st.out, st.bloque, st.actual, f)
  }

  /** `Generador.generar`, collecting what it yields. */
  method Generate(bloquesTokens: seq<TokenData>, f: Fragmenter) returns (fragmentos: seq<Fragment>)
    ensures fragmentos == Generated(bloquesTokens, f)
  {
    fragmentos := [];
    var bloque: seq<string> := [];
    var actual: Option<string> := None;
    for k := 0 to |bloquesTokens|
      invariant Gen(fragmentos, bloque, actual) == Feed(bloquesTokens[..k], f)
    {
      assert bloquesTokens[..k + 1][..k] == bloquesTokens[..k];
      var t := bloquesTokens[k];
      if t.idioma.None? && t.tiempoSilencio.Some? && t.tiempoSilencio.value != 0 {
        if bloque != [] {
          var a := f(bloque, actual);
          if a.Some? {
            fragmentos := fragmentos + [Voice(a.value.0, a.value.1, bloque, actual)];
          }
          bloque := [];
        }
        var ms := t.tiempoSilencio.value;
        fragmentos := fragmentos + [Pause(ms, PauseName(ms))];
      } else {
        if actual.Some? && actual.value != "" && t.idioma != actual && bloque != [] {
          var a := f(bloque, actual);
          if a.Some? {
            fragmentos := fragmentos + [Voice(a.value.0, a.value.1, bloque, actual)];
          }
          bloque := [];
        }
        bloque := bloque + [t.token];
        actual := t.idioma;
      }
    }
    assert bloquesTokens[..|bloquesTokens|] == bloquesTokens;
    if bloque != [] {
      var a := f(bloque, actual);
      if a.Some? {
        fragmentos := fragmentos + [Voice(a.value.0, a.value.1, bloque, actual)];
      }
    }
  }

  // ----- Properties of the generator -----

  /** The silences yielded, in order. */
  function Pauses(fs: seq<Fragment>): seq<int>
  {
    if fs == [] then []
    else Pauses(fs[..|fs| - 1]) + (if fs[|fs| - 1].Pause? then [fs[|fs| - 1].ms] else [])
  }

  /** The times of the timed pauses of the input, in order. */
  function PauseTimes(ts: seq<TokenData>): seq<int>
  {
    if ts == [] then []
    else PauseTimes(ts[..|ts| - 1]) + (if IsTimedPause(ts[|ts| - 1]) then [ts[|ts| - 1].tiempoSilencio.value] else [])
  }

  /** Every yielded fragment is well formed: a voice has words, a silence
      has a non-zero time and is named after it. */
  predicate FragmentsWellFormed(fs: seq<Fragment>)
  {
    forall i :: 0 <= i < |fs| ==>
      (fs[i].Voice? ==> fs[i].palabras != []) && (fs[i].Pause? ==> fs[i].ms != 0 && fs[i].nombre == PauseName(fs[i].ms))
  }

  lemma PausesSnoc(fs: seq<Fragment>, x: Fragment)
    ensures Pauses(fs + [x]) == Pauses(fs) + (if x.Pause? then [x.ms] else [])
  {
    assert (fs + [x])[..|fs|] == fs;
  }

  lemma FlushPauses(out: seq<Fragment>, bloque: seq<string>, idioma: Option<string>, f: Fragmenter)
    ensures Pauses(Flush(out, bloque, idioma, f)) == Pauses(out)
  {
    if bloque != [] && f(bloque, idioma).Some? {
      var (audio, nombre) := f(bloque, idioma).value;
      PausesSnoc(out, Voice(audio, nombre, bloque, idioma));
    }
  }

  lemma FlushWellFormed(out: seq<Fragment>, bloque: seq<string>, idioma: Option<string>, f: Fragmenter)
    requires FragmentsWellFormed(out)
    ensures FragmentsWellFormed(Flush(out, bloque, idioma, f))
  {
  }

  lemma {:induction false} FeedPauses(ts: seq<TokenData>, f: Fragmenter)
    ensures Pauses(Feed(ts, f).out) == PauseTimes(ts)
  {
    if ts != [] {
      var st := Feed(ts[..|ts| - 1], f);
      var t := ts[|ts| - 1];
      FeedPauses(ts[..|ts| - 1], f);
      FlushPauses(st.out, st.bloque, st.actual, f);
      if IsTimedPause(t) {
        var ms := t.tiempoSilencio.value;
        PausesSnoc(Flush(st.out, st.bloque, st.actual, f), Pause(ms, PauseName(ms)));
      }
    }
  }

  lemma {:induction false} FeedWellFormed(ts: seq<TokenData>, f: Fragmenter)
    ensures FragmentsWellFormed(Feed(ts, f).out)
  {
    if ts != [] {
      var st := Feed(ts[..|ts| - 1], f);
      FeedWellFormed(ts[..|ts| - 1], f);
      FlushWellFormed(st.out, st.bloque, st.actual, f);
    }
  }

  /** Whatever the engine does, the silences yielded are exactly the timed
      pauses of the input, in order, each named after its time; no voice
      fragment is empty. */
  lemma GeneratedPauses(ts: seq<TokenData>, f: Fragmenter)
    ensures Pauses(Generated(ts, f)) == PauseTimes(ts)
    ensures FragmentsWellFormed(Generated(ts, f))
  {
    FeedPauses(ts, f);
    FeedWellFormed(ts, f);
    var st := Feed(ts, f);
    FlushPauses(st.out, st.bloque, st.actual, f);
    FlushWellFormed(st.out, st.bloque, st.actual, f);
  }

  /** The engine always gives audio. */
  ghost predicate AlwaysAudio(f: Fragmenter)
  {
    forall ws, l :: f(ws, l).Some?
  }

  /** Each voiced word with the language of its fragment, in order. */
  function Spoken(fs: seq<Fragment>): seq<(string, Option<string>)>
  {
    if fs == [] then []
    else
      Spoken(fs[..|fs| - 1]) +
      match fs[|fs| - 1]
      case Pause(_, _) => []
      case Voice(_, _, ws, l) => Pending(ws, l)
  }

  function Pending(bloque: seq<string>, l: Option<string>): seq<(string, Option<string>)>
  {
    seq(|bloque|, i requires 0 <= i < |bloque| => (bloque[i], l))
  }

  /** The tokens that are not timed pauses, with their own languages. */
  function Words(ts: seq<TokenData>): seq<(string, Option<string>)>
  {
    if ts == [] then []
    else Words(ts[..|ts| - 1]) + (if IsTimedPause(ts[|ts| - 1]) then [] else [(ts[|ts| - 1].token, ts[|ts| - 1].idioma)])
  }

  /** Every token is a timed pause or carries a set language. */
  predicate AllTagged(ts: seq<TokenData>)
  {
    forall i :: 0 <= i < |ts| ==> IsTimedPause(ts[i]) || LanguageSet(ts[i].idioma)
  }

  lemma SpokenSnoc(fs: seq<Fragment>, x: Fragment)
    ensures Spoken(fs + [x]) == Spoken(fs) + (if x.Voice? then Pending(x.palabras, x.idioma) else [])
  {
    assert (fs + [x])[..|fs|] == fs;
  }

  lemma FlushSpoken(out: seq<Fragment>, bloque: seq<string>, idioma: Option<string>, f: Fragmenter)
    requires AlwaysAudio(f)
    ensures Spoken(Flush(out, bloque, idioma, f)) == Spoken(out) + Pending(bloque, idioma)
  {
    if bloque != [] {
      var (audio, nombre) := f(bloque, idioma).value;
      SpokenSnoc(out, Voice(audio, nombre, bloque, idioma));
    } else {
      assert Pending(bloque, idioma) == [];
    }
  }

  /** The generator state has voiced, or holds pending, exactly the words
      `w`, and a pending block has a language. */
  predicate SpokenSoFar(st: Gen, w: seq<(string, Option<string>)>)
  {
    Spoken(st.out) + Pending(st.bloque, st.actual) == w
    && (st.bloque != [] ==> LanguageSet(st.actual))
  }

  lemma {:induction false} FeedSpoken(ts: seq<TokenData>, f: Fragmenter)
    requires AlwaysAudio(f) && AllTagged(ts)
    ensures var st := Feed(ts, f);
            Spoken(st.out) + Pending(st.bloque, st.actual) == Words(ts)
            && (st.bloque != [] ==> LanguageSet(st.actual))
  {
    if ts != [] {
      var init := ts[..|ts| - 1];
      var t := ts[|ts| - 1];
      assert AllTagged(init) by {
        forall i | 0 <= i < |init| ensures IsTimedPause(init[i]) || LanguageSet(init[i].idioma) {
          assert init[i] == ts[i];
        }
      }
      assert IsTimedPause(t) || LanguageSet(t.idioma) by { assert t == ts[|ts| - 1]; }
      FeedSpoken(init, f);
      var st := Feed(init, f);
      assert Feed(ts, f) == Step(st, t, f);
      assert SpokenSoFar(st, Words(init));
      StepSpoken(st, t, f, Words(init));
      assert Words(ts) == Words(init) + (if IsTimedPause(t) then [] else [(t.token, t.idioma)]);
    }
  }

  /** One iteration keeps the voiced and pending words in step with the
      words read: a timed pause adds none, any other token adds itself. */
  lemma StepSpoken(st: Gen, t: TokenData, f: Fragmenter, w: seq<(string, Option<string>)>)
    requires AlwaysAudio(f) && SpokenSoFar(st, w)
    requires IsTimedPause(t) || LanguageSet(t.idioma)
    ensures SpokenSoFar(Step(st, t, f), w + (if IsTimedPause(t) then [] else [(t.token, t.idioma)]))
  {
    if IsTimedPause(t) {
      PauseStepSpoken(st, t, f, w);
    } else if LanguageSet(st.actual) && t.idioma != st.actual && st.bloque != [] {
      SwitchStepSpoken(st, t, f, w);
    } else {
      ExtendStepSpoken(st, t, f, w);
    }
  }

  /** A timed pause voices the pending block and adds a pause. */
  lemma PauseStepSpoken(st: Gen, t: TokenData, f: Fragmenter, w: seq<(string, Option<string>)>)
    requires AlwaysAudio(f) && SpokenSoFar(st, w) && IsTimedPause(t)
    ensures SpokenSoFar(Step(st, t, f), w)
  {
    var ms := t.tiempoSilencio.value;
    var flushed := Flush(st.out, st.bloque, st.actual, f);
    FlushSpoken(st.out, st.bloque, st.actual, f);
    SpokenSnoc(flushed, Pause(ms, PauseName(ms)));
    assert Step(st, t, f) == Gen(flushed + [Pause(ms, PauseName(ms))], [], st.actual);
    assert Pending([], st.actual) == [];
  }

  /** A word in another language voices the pending block and starts a
      new one. */
  lemma SwitchStepSpoken(st: Gen, t: TokenData, f: Fragmenter, w: seq<(string, Option<string>)>)
    requires AlwaysAudio(f) && SpokenSoFar(st, w) && !IsTimedPause(t) && LanguageSet(t.idioma)
    requires LanguageSet(st.actual) && t.idioma != st.actual && st.bloque != []
    ensures SpokenSoFar(Step(st, t, f), w + [(t.token, t.idioma)])
  {
    FlushSpoken(st.out, st.bloque, st.actual, f);
    assert Step(st, t, f) == Gen(Flush(st.out, st.bloque, st.actual, f), [t.token], t.idioma);
    assert Pending([t.token], t.idioma) == [(t.token, t.idioma)];
  }

  /** Any other word joins the pending block, which takes its language. */
  lemma ExtendStepSpoken(st: Gen, t: TokenData, f: Fragmenter, w: seq<(string, Option<string>)>)
    requires AlwaysAudio(f) && SpokenSoFar(st, w) && !IsTimedPause(t) && LanguageSet(t.idioma)
    requires !(LanguageSet(st.actual) && t.idioma != st.actual && st.bloque != [])
    ensures SpokenSoFar(Step(st, t, f), w + [(t.token, t.idioma)])
  {
    assert Step(st, t, f) == Gen(st.out, st.bloque + [t.token], t.idioma);
    assert Pending(st.bloque + [t.token], t.idioma) == Pending(st.bloque, t.idioma) + [(t.token, t.idioma)];
    assert st.bloque != [] ==> st.actual == t.idioma;
    assert st.bloque == [] ==> Pending(st.bloque, st.actual) == [] && Pending(st.bloque, t.idioma) == [];
  }

  /** When the engine always gives audio and every non-pause token carries
      a language, the voiced words are exactly the non-pause tokens, in
      order, each in a fragment generated with its own language. */
  lemma GeneratedSpeaksWords(ts: seq<TokenData>, f: Fragmenter)
    requires AlwaysAudio(f) && AllTagged(ts)
    ensures Spoken(Generated(ts, f)) == Words(ts)
  {
    FeedSpoken(ts, f);
    var st := Feed(ts, f);
    FlushSpoken(st.out, st.bloque, st.actual, f);
  }

  /** A token without a language and without a pause time resets the
      current language, so the next word does not close the block: in
      `a/español, ","/None, b/ingles` the comma is voiced in English. */
  lemma UntimedMarkJoinsNextBlock(ts: seq<TokenData>, f: Fragmenter)
    requires ts == [TokenData("a", Some("español"), None), TokenData(",", None, None), TokenData("b", Some("ingles"), None)]
    requires AlwaysAudio(f)
    ensures Spoken(Generated(ts, f)) == [("a", Some("español")), (",", Some("ingles")), ("b", Some("ingles"))]
  {
    var v := f(["a"], Some("español")).value;
    var out := [Voice(v.0, v.1, ["a"], Some("español"))];
    var word, mark, next := ts[0], ts[1], ts[2];
    FeedSnoc([], word, f);
    assert [] + [word] == [word];
    var s1 := Feed([word], f);
    assert s1 == Gen([], ["a"], Some("español"));
    FeedSnoc([word], mark, f);
    assert [word] + [mark] == [word, mark];
    var s2 := Feed([word, mark], f);
    assert s2 == Gen(out, [","], None);
    FeedSnoc([word, mark], next, f);
    assert [word, mark] + [next] == ts;
    assert Feed(ts, f) == Gen(out, [",", "b"], Some("ingles"));
    FlushSpoken(out, [",", "b"], Some("ingles"), f);
    SpokenSnoc([], out[0]);
    assert [] + out == out;
  }

  /** The loop reads one token more. */
  lemma FeedSnoc(ts: seq<TokenData>, t: TokenData, f: Fragmenter)
    ensures Feed(ts + [t], f) == Step(Feed(ts, f), t, f)
  {
    assert (ts + [t])[..|ts|] == ts;
  }

  // ----- The gTTS fragment -----

  /** `{"español": "es", "ingles": "en"}.get(idioma)`. */
  function GttsCode(idioma: Option<string>): (r: Option<string>)
    ensures r == Some("es") <==> idioma == Some("español")
    ensures r == Some("en") <==> idioma == Some("ingles")
    ensures r.None? <==> idioma != Some("español") && idioma != Some("ingles")
  {
    if idioma == Some("español") then Some("es")
    else if idioma == Some("ingles") then Some("en")
    else None
  }

  predicate IsQuote(c: char)
  {
    c == '"' || c == '\''
  }

  /** `re.sub(r'["\']', '', s)`: the string without its quotes, every other
      character kept in order. */
  function RemoveQuotes(s: string): (r: string)
    ensures forall i :: 0 <= i < |r| ==> !IsQuote(r[i])
    ensures |r| <= |s|
    ensures (forall i :: 0 <= i < |s| ==> !IsQuote(s[i])) ==> r == s
  {
    if s == [] then []
    else (if IsQuote(s[0]) then [] else [s[0]]) + RemoveQuotes(s[1..])
  }

  /** Removing quotes keeps the other characters in order: appending a
      character to the input appends it, unless it is a quote. */
  lemma {:induction false} RemoveQuotesSnoc(s: string, c: char)
    ensures RemoveQuotes(s + [c]) == RemoveQuotes(s) + (if IsQuote(c) then [] else [c])
    decreases |s|
  {
    if s == [] {
      assert [c][1..] == [];
    } else {
      assert (s + [c])[1..] == s[1..] + [c];
      RemoveQuotesSnoc(s[1..], c);
    }
  }

  /** The text gTTS speaks: the block joined by spaces, without quotes. */
  function SpeechText(palabras: seq<string>): (r: string)
    ensures forall i :: 0 <= i < |r| ==> !IsQuote(r[i])
  {
    RemoveQuotes(Join(palabras, " "))
  }

  /** `GTTS._generar_fragmento_audio`: an unsupported language gives no
      audio without calling the engine; otherwise the engine speaks the
      cleaned text in the mapped language, and an exception gives no audio.
      `speak` stands for synthesis, saving and reloading; `namer` for the
      file name the namer object gives. */
  function GttsFragment(palabras: seq<string>, idioma: Option<string>,
                        speak: (string, string) -> Outcome<AudioBatching.Clip>,
                        namer: (seq<string>, Option<string>) -> string): (r: Option<(AudioBatching.Clip, string)>)
    ensures GttsCode(idioma).None? ==> r.None?
    ensures GttsCode(idioma).Some? ==>
              (r.Some? <==> speak(SpeechText(palabras), GttsCode(idioma).value).Returned?)
    ensures r.Some? ==> r.value == (speak(SpeechText(palabras), GttsCode(idioma).value).value, namer(palabras, idioma))
  {
    match GttsCode(idioma)
    case None => None
    case Some(codigo) =>
      match speak(SpeechText(palabras), codigo)
      case Raised => None
      case Returned(seg) => Some((seg, namer(palabras, idioma)))
  }
}
