/** `ConvertidorTextoVoz.convertir_texto_voz` (`Convetir_Texto_Audio.py`,
    copied in `convertor_audio/conversor.py`): the language-tagged tokens
    become a list of audio units, speech for each block of words sharing a
    language and silence for each pause. Speech synthesis is abstract: each
    engine is a function from a block and a language to a clip, nothing, or
    an exception. Every speech unit also records the block and the language
    it was generated from, so that the properties can speak of them. */
module AudioBatching {
  import opened Base
  import opened Text
  import TokenExpansion

  /** An audio segment an engine produced; its samples are not modelled. */
  datatype Clip = Clip(samples: seq<int>)

  datatype Motor = GTTS | Pyttsx3

  /** A synthesis engine: a clip, `None`, or an exception. */
  type Engine = (seq<string>, string) -> Outcome<Option<Clip>>

  /** An entry of `archivos_temporales`. */
  datatype Unit =
    | Speech(clip: Clip, motor: Motor, palabras: seq<string>, idioma: string)
    | Silence(ms: int)

  /** `generaraudio`: gTTS first, pyttsx3 only when gTTS gave nothing or
      raised, and nothing when both fail. */
  function Generate(palabras: seq<string>, idioma: string, gtts: Engine, pytts: Engine): (r: Option<Unit>)
    ensures r.Some? ==> r.value.Speech? && r.value.palabras == palabras && r.value.idioma == idioma
    ensures gtts(palabras, idioma) .Returned? && gtts(palabras, idioma).value.Some? ==>
              r == Some(Speech(gtts(palabras, idioma).value.value, GTTS, palabras, idioma))
    ensures r.Some? && r.value.motor == Pyttsx3 ==>
              !(gtts(palabras, idioma).Returned? && gtts(palabras, idioma).value.Some?)
    ensures !(gtts(palabras, idioma).Returned? && gtts(palabras, idioma).value.Some?)
            && pytts(palabras, idioma).Returned? && pytts(palabras, idioma).value.Some? ==>
              r == Some(Speech(pytts(palabras, idioma).value.value, Pyttsx3, palabras, idioma))
    ensures r.None? <==>
              !(gtts(palabras, idioma).Returned? && gtts(palabras, idioma).value.Some?)
              && !(pytts(palabras, idioma).Returned? && pytts(palabras, idioma).value.Some?)
  {
    var a := gtts(palabras, idioma);
    if a.Returned? && a.value.Some? then Some(Speech(a.value.value, GTTS, palabras, idioma))
    else
      var b := pytts(palabras, idioma);
      if b.Returned? && b.value.Some? then Some(Speech(b.value.value, Pyttsx3, palabras, idioma))
      else None
  }

  /** `{"español": "es", "ingles": "en"}.get(idioma)`. */
  function LanguageCode(idioma: string): (r: Option<string>)
    ensures r.Some? <==> idioma == "español" || idioma == "ingles"
    ensures idioma == "español" ==> r == Some("es")
    ensures idioma == "ingles" ==> r == Some("en")
  {
    if idioma == "español" then Some("es")
    else if idioma == "ingles" then Some("en")
    else None
  }

  /** `generaraudio_gtts`: an unsupported language gives `None`; otherwise
      gTTS speaks the expanded words in the mapped language, and any
      exception gives `None`, so it never raises. `synth` stands for gTTS
      with saving and reloading the file. */
  function GttsAudio(palabras: seq<string>, idioma: string, synth: (string, string) -> Outcome<Clip>): (r: Outcome<Option<Clip>>)
    ensures r.Returned?
    ensures LanguageCode(idioma).None? ==> r == Returned(None)
    ensures LanguageCode(idioma).Some? ==>
              (r.value.Some? <==> synth(TokenExpansion.SpokenText(palabras), LanguageCode(idioma).value).Returned?)
    ensures r.value.Some? ==>
              LanguageCode(idioma).Some?
              && r.value.value == synth(TokenExpansion.SpokenText(palabras), LanguageCode(idioma).value).value
  {
    match LanguageCode(idioma)
    case None => Returned(None)
    case Some(codigo) =>
      match synth(TokenExpansion.SpokenText(palabras), codigo)
      case Raised => Returned(None)
      case Returned(seg) => Returned(Some(seg))
  }

  /** A block in a language gTTS does not support is spoken by pyttsx3 when
      pyttsx3 succeeds, and the unit then holds pyttsx3's clip; it is lost
      when pyttsx3 fails. */
  lemma UnsupportedLanguageFallsBack(palabras: seq<string>, idioma: string,
                                     synth: (string, string) -> Outcome<Clip>, pytts: Engine)
    requires idioma != "español" && idioma != "ingles"
    ensures var r := Generate(palabras, idioma, (ws, l) => GttsAudio(ws, l, synth), pytts);
            (r.Some? ==> r.value.motor == Pyttsx3)
            && (r.Some? ==> r.value == Speech(pytts(palabras, idioma).value.value, Pyttsx3, palabras, idioma))
            && (r.None? <==> !(pytts(palabras, idioma).Returned? && pytts(palabras, idioma).value.Some?))
  {
    var g: Engine := (ws, l) => GttsAudio(ws, l, synth);
    assert g(palabras, idioma) == Returned(None);
  }

  /** The pause each character calls for, in milliseconds. */
  function CharPause(c: char): nat
  {
    if c == '.' then 900
    else if c == ',' then 230
    else if c == ';' || c == ':' || c == '(' || c == ')' then 400
    else if c == '\n' then 800
    else 0
  }

  predicate IsPauseLength(d: int)
  {
    d == 230 || d == 400 || d == 800 || d == 900
  }

  /** The longest pause any character of the token calls for: at least each
      character's, equal to one of them, and 0 when none calls for one. */
  function MaxPause(palabra: string): (d: nat)
    ensures forall i :: 0 <= i < |palabra| ==> CharPause(palabra[i]) <= d
    ensures d == 0 || exists i :: 0 <= i < |palabra| && CharPause(palabra[i]) == d
    ensures d == 0 || IsPauseLength(d)
    decreases |palabra|
  {
    if palabra == [] then 0
    else
      var init := palabra[..|palabra| - 1];
      var d0 := MaxPause(init);
      var c := CharPause(palabra[|palabra| - 1]);
      assert forall i :: 0 <= i < |init| ==> palabra[i] == init[i];
      if c > d0 then c else d0
  }

  /** The inner loop over the token's characters. */
  method PauseDuration(palabra: string) returns (duracion: nat)
    ensures duracion == MaxPause(palabra)
  {
    duracion := 0;
    for k := 0 to |palabra|
      invariant duracion == MaxPause(palabra[..k])
    {
      assert palabra[..k + 1][..k] == palabra[..k];
      var p := CharPause(palabra[k]);
      if p > duracion {
        duracion := p;
      }
    }
    assert palabra[..|palabra|] == palabra;
  }

  /** A new silence merges into a silence that is already last, keeping the
      longer, and is appended otherwise. */
  function AddSilence(units: seq<Unit>, d: int): (r: seq<Unit>)
    ensures |r| > 0 && r[|r| - 1].Silence?
    ensures units != [] && units[|units| - 1].Silence? ==>
              r == units[..|units| - 1] + [Silence(if units[|units| - 1].ms >= d then units[|units| - 1].ms else d)]
    ensures !(units != [] && units[|units| - 1].Silence?) ==> r == units + [Silence(d)]
  {
    if units != [] && units[|units| - 1].Silence? then
      var ultimo := units[|units| - 1].ms;
      units[..|units| - 1] + [Silence(if ultimo >= d then ultimo else d)]
    else units + [Silence(d)]
  }

  /** Generating a pending block: nothing for an empty block or a failed
      generation, otherwise one speech unit. */
  function FlushBlock(units: seq<Unit>, bloque: seq<string>, idioma: string, gtts: Engine, pytts: Engine): seq<Unit>
  {
    if bloque == [] then units
    else match Generate(bloque, idioma, gtts, pytts)
      case None => units
      case Some(u) => units + [u]
  }

  /** The loop variables: `archivos_temporales`, `bloque_palabras_actuales`
      and `idioma_actual`. */
  datatype Batch = Batch(units: seq<Unit>, bloque: seq<string>, actual: string)

  /** A tagged token: a word and its language, or a pause marker. */
  type Tagged = (string, Option<string>)

  const DefaultLanguage: string := "español"

  /** One iteration of the loop: a pause marker closes the pending block
      and adds its silence, if any, and is not itself spoken; a word closes
      the block when its language differs from the block's. */
  function Step(st: Batch, x: Tagged, gtts: Engine, pytts: Engine): Batch
  {
    var (palabra, idioma) := x;
    if idioma.None? then
      var units1 := FlushBlock(st.units, st.bloque, st.actual, gtts, pytts);
      var d := MaxPause(palabra);
      var units2 := if d > 0 then AddSilence(units1, d) else units1;
      Batch(units2, [], st.actual)
    else
      var lang := idioma.value;
      var actual := if st.bloque == [] && lang != st.actual then lang else st.actual;
      if lang != actual && st.bloque != [] then
        Batch(FlushBlock(st.units, st.bloque, actual, gtts, pytts), [palabra], lang)
      else
        Batch(st.units, st.bloque + [palabra], actual)
  }

  function Feed(xs: seq<Tagged>, gtts: Engine, pytts: Engine): Batch
  {
    if xs == [] then Batch([], [], DefaultLanguage)
    else Step(Feed(xs[..|xs| - 1], gtts, pytts), xs[|xs| - 1], gtts, pytts)
  }

  /** The units after the loop and the final flush. */
  function Convert(xs: seq<Tagged>, gtts: Engine, pytts: Engine): seq<Unit>
  {
    var st := Feed(xs, gtts, pytts);
    FlushBlock(st.units, st.bloque, st.actual, gtts, pytts)
  }

  /** `isinstance(texto_idioma, list)` and every element a 2-tuple. */
  predicate Shaped(v: PyValue)
  {
    v.PyList? && forall i :: 0 <= i < |v.items| ==> v.items[i].PyTuple? && |v.items[i].items| == 2
  }

  /** The tuples hold a string word and a language that is `None` or a
      string: the only entries the loop can handle without raising. */
  predicate WellTyped(v: PyValue)
  {
    Shaped(v) ==>
      forall i :: 0 <= i < |v.items| ==>
        v.items[i].items[0].PyStr? && (v.items[i].items[1].PyNone? || v.items[i].items[1].PyStr?)
  }

  function AsTagged(t: PyValue): Tagged
    requires t.PyTuple? && |t.items| == 2 && t.items[0].PyStr? && (t.items[1].PyNone? || t.items[1].PyStr?)
  {
    (t.items[0].s, if t.items[1].PyNone? then None else Some(t.items[1].s))
  }

  /** `nombre.lower().endswith('.mp3')`, else the suffix is appended. */
  function EnsureMp3(nombre: string): (r: string)
    ensures EndsWith(Lower(r), ".mp3")
    ensures EndsWith(Lower(nombre), ".mp3") ==> r == nombre
    ensures !EndsWith(Lower(nombre), ".mp3") ==> r == nombre + ".mp3"
  {
    if EndsWith(Lower(nombre), ".mp3") then nombre
    else
      var r := nombre + ".mp3";
      assert Lower(r)[|r| - 4..] == ".mp3" by {
        forall k | 0 <= k < 4 ensures Lower(r)[|r| - 4 + k] == ".mp3"[k] {
          assert r[|nombre| + k] == ".mp3"[k];
        }
      }
      r
  }

  lemma EnsureMp3Idempotent(nombre: string)
    ensures EnsureMp3(EnsureMp3(nombre)) == EnsureMp3(nombre)
  {
  }

  /** One pass of the loop body over the loop variables. */
  method ProcessToken(archivos0: seq<Unit>, bloque0: seq<string>, actual0: string, x: Tagged, gtts: Engine, pytts: Engine)
    returns (archivos: seq<Unit>, bloque: seq<string>, actual: string)
    ensures Batch(archivos, bloque, actual) == Step(Batch(archivos0, bloque0, actual0), x, gtts, pytts)
  {
    archivos, bloque, actual := archivos0, bloque0, actual0;
    var (palabra, idioma) := x;
    if idioma.None? {
      if bloque != [] {
        var archivo := Generate(bloque, actual, gtts, pytts);
        if archivo.Some? {
          archivos := archivos + [archivo.value];
        }
        bloque := [];
      }
      var duracion := PauseDuration(palabra);
      if duracion > 0 {
        if archivos != [] && archivos[|archivos| - 1].Silence? {
          var ultimo := archivos[|archivos| - 1].ms;
          archivos := archivos[..|archivos| - 1] + [Silence(if ultimo >= duracion then ultimo else duracion)];
        } else {
          archivos := archivos + [Silence(duracion)];
        }
      }
    } else {
      if bloque == [] && idioma.value != actual {
        actual := idioma.value;
      }
      if idioma.value != actual && bloque != [] {
        var archivo := Generate(bloque, actual, gtts, pytts);
        if archivo.Some? {
          archivos := archivos + [archivo.value];
        }
        bloque := [];
        actual := idioma.value;
      }
      bloque := bloque + [palabra];
    }
  }

  /** `ConvertidorTextoVoz.convertir_texto_voz` up to the hand-over to
      `combinaraudios`: a malformed input gives `None`; otherwise the audio
      units in order and the output name. */
  method ConvertTextToSpeech(textoIdioma: PyValue, nombreSalida: string, gtts: Engine, pytts: Engine)
    returns (r: Option<(seq<Unit>, string)>)
    requires WellTyped(textoIdioma)
    ensures !Shaped(textoIdioma) ==> r == None
    ensures Shaped(textoIdioma) ==>
              r == Some((Convert(seq(|textoIdioma.items|, i requires 0 <= i < |textoIdioma.items| => AsTagged(textoIdioma.items[i])),
                                 gtts, pytts),
                         EnsureMp3(nombreSalida)))
  {
    if !Shaped(textoIdioma) {
      return None;
    }
    var xs := seq(|textoIdioma.items|, i requires 0 <= i < |textoIdioma.items| => AsTagged(textoIdioma.items[i]));
    var archivos: seq<Unit> := [];
    var bloque: seq<string> := [];
    var actual := DefaultLanguage;
    for k := 0 to |xs|
      invariant Batch(archivos, bloque, actual) == Feed(xs[..k], gtts, pytts)
    {
      assert xs[..k + 1][..k] == xs[..k];
      archivos, bloque, actual := ProcessToken(archivos, bloque, actual, xs[k], gtts, pytts);
    }
    assert xs[..|xs|] == xs;
    if bloque != [] {
      var archivo := Generate(bloque, actual, gtts, pytts);
      if archivo.Some? {
        archivos := archivos + [archivo.value];
      }
    }
    r := Some((archivos, EnsureMp3(nombreSalida)));
  }

  // ----- Properties -----

  /** No two silences sit next to each other. */
  predicate NoAdjacentSilences(units: seq<Unit>)
  {
    forall i :: 0 <= i < |units| - 1 ==> !(units[i].Silence? && units[i + 1].Silence?)
  }

  /** Every silence is one of the table's lengths, and every speech unit
      comes from a non-empty block. */
  predicate UnitsWellFormed(units: seq<Unit>)
  {
    forall i :: 0 <= i < |units| ==>
      (units[i].Silence? ==> IsPauseLength(units[i].ms)) && (units[i].Speech? ==> units[i].palabras != [])
  }

  lemma AddSilenceKeeps(units: seq<Unit>, d: int)
    requires NoAdjacentSilences(units) && UnitsWellFormed(units) && IsPauseLength(d)
    ensures NoAdjacentSilences(AddSilence(units, d)) && UnitsWellFormed(AddSilence(units, d))
  {
  }

  lemma FlushBlockKeeps(units: seq<Unit>, bloque: seq<string>, idioma: string, gtts: Engine, pytts: Engine)
    requires NoAdjacentSilences(units) && UnitsWellFormed(units)
    ensures NoAdjacentSilences(FlushBlock(units, bloque, idioma, gtts, pytts))
    ensures UnitsWellFormed(FlushBlock(units, bloque, idioma, gtts, pytts))
  {
  }

  lemma StepKeeps(st: Batch, x: Tagged, gtts: Engine, pytts: Engine)
    requires NoAdjacentSilences(st.units) && UnitsWellFormed(st.units)
    ensures NoAdjacentSilences(Step(st, x, gtts, pytts).units) && UnitsWellFormed(Step(st, x, gtts, pytts).units)
  {
    if x.1.None? {
      FlushBlockKeeps(st.units, st.bloque, st.actual, gtts, pytts);
      var units1 := FlushBlock(st.units, st.bloque, st.actual, gtts, pytts);
      if MaxPause(x.0) > 0 {
        AddSilenceKeeps(units1, MaxPause(x.0));
      }
    } else {
      var lang := x.1.value;
      var actual := if st.bloque == [] && lang != st.actual then lang else st.actual;
      FlushBlockKeeps(st.units, st.bloque, actual, gtts, pytts);
    }
  }

  lemma {:induction false} FeedKeeps(xs: seq<Tagged>, gtts: Engine, pytts: Engine)
    ensures NoAdjacentSilences(Feed(xs, gtts, pytts).units) && UnitsWellFormed(Feed(xs, gtts, pytts).units)
  {
    if xs != [] {
      FeedKeeps(xs[..|xs| - 1], gtts, pytts);
      StepKeeps(Feed(xs[..|xs| - 1], gtts, pytts), xs[|xs| - 1], gtts, pytts);
    }
  }

  /** Whatever the engines do: no two silences are adjacent, every silence has one of the
      table's lengths, and every speech unit has words. */
  lemma ConvertWellFormed(xs: seq<Tagged>, gtts: Engine, pytts: Engine)
    ensures NoAdjacentSilences(Convert(xs, gtts, pytts)) && UnitsWellFormed(Convert(xs, gtts, pytts))
  {
    FeedKeeps(xs, gtts, pytts);
    var st := Feed(xs, gtts, pytts);
    FlushBlockKeeps(st.units, st.bloque, st.actual, gtts, pytts);
  }

  /** Each word of each speech unit, paired with the unit's language. */
  function Spoken(units: seq<Unit>): seq<(string, string)>
  {
    if units == [] then []
    else
      Spoken(units[..|units| - 1]) +
      match units[|units| - 1]
      case Silence(_) => []
      case Speech(_, _, ws, l) => seq(|ws|, i requires 0 <= i < |ws| => (ws[i], l))
  }

  /** The words that carry a language, with it, in input order. */
  function Words(xs: seq<Tagged>): seq<(string, string)>
  {
    if xs == [] then []
    else Words(xs[..|xs| - 1]) + (if xs[|xs| - 1].1.Some? then [(xs[|xs| - 1].0, xs[|xs| - 1].1.value)] else [])
  }

  /** gTTS always produces a clip. */
  ghost predicate AlwaysSpeaks(gtts: Engine)
  {
    forall ws, l :: gtts(ws, l).Returned? && gtts(ws, l).value.Some?
  }

  function Pending(bloque: seq<string>, l: string): seq<(string, string)>
  {
    seq(|bloque|, i requires 0 <= i < |bloque| => (bloque[i], l))
  }

  lemma SpokenSnoc(units: seq<Unit>, u: Unit)
    ensures Spoken(units + [u]) == Spoken(units) + Spoken([u])
  {
    assert (units + [u])[..|units|] == units;
    assert [u][..0] == [];
  }

  lemma SpokenAddSilence(units: seq<Unit>, d: int)
    ensures Spoken(AddSilence(units, d)) == Spoken(units)
  {
    if units != [] && units[|units| - 1].Silence? {
      var init := units[..|units| - 1];
      assert units == init + [units[|units| - 1]];
      SpokenSnoc(init, units[|units| - 1]);
      SpokenSnoc(init, AddSilence(units, d)[|units| - 1]);
      assert AddSilence(units, d) == init + [AddSilence(units, d)[|units| - 1]];
    } else {
      SpokenSnoc(units, Silence(d));
    }
  }

  lemma SpokenFlush(units: seq<Unit>, bloque: seq<string>, l: string, gtts: Engine, pytts: Engine)
    requires AlwaysSpeaks(gtts)
    ensures Spoken(FlushBlock(units, bloque, l, gtts, pytts)) == Spoken(units) + Pending(bloque, l)
  {
    if bloque != [] {
      var u := Generate(bloque, l, gtts, pytts).value;
      SpokenSnoc(units, u);
      assert Spoken([u]) == Pending(bloque, l) by { assert [u][..0] == []; }
    } else {
      assert Pending(bloque, l) == [];
    }
  }

  /** Once the pending block is counted with the current
      language, the speech so far is exactly the language-tagged words so
      far, each with its own language. */
  lemma {:induction false} FeedSpeaks(xs: seq<Tagged>, gtts: Engine, pytts: Engine)
    requires AlwaysSpeaks(gtts)
    ensures var st := Feed(xs, gtts, pytts);
            Spoken(st.units) + Pending(st.bloque, st.actual) == Words(xs)
  {
    if xs != [] {
      var init := xs[..|xs| - 1];
      var x := xs[|xs| - 1];
      FeedSpeaks(init, gtts, pytts);
      var st := Feed(init, gtts, pytts);
      if x.1.None? {
        SpokenFlush(st.units, st.bloque, st.actual, gtts, pytts);
        var units1 := FlushBlock(st.units, st.bloque, st.actual, gtts, pytts);
        SpokenAddSilence(units1, MaxPause(x.0));
        assert Pending([], st.actual) == [];
      } else {
        var lang := x.1.value;
        var actual := if st.bloque == [] && lang != st.actual then lang else st.actual;
        if lang != actual && st.bloque != [] {
          SpokenFlush(st.units, st.bloque, actual, gtts, pytts);
          assert Pending([x.0], lang) == [(x.0, lang)];
        } else {
          assert Pending(st.bloque + [x.0], actual) == Pending(st.bloque, actual) + [(x.0, lang)];
          assert st.bloque == [] ==> Pending(st.bloque, st.actual) == [];
        }
      }
    }
  }

  /** With an engine that always speaks, the loop speaks exactly
      the language-tagged words, in input order, each in a unit generated
      with its own language. */
  lemma ConvertSpeaksWords(xs: seq<Tagged>, gtts: Engine, pytts: Engine)
    requires AlwaysSpeaks(gtts)
    ensures Spoken(Convert(xs, gtts, pytts)) == Words(xs)
  {
    FeedSpeaks(xs, gtts, pytts);
    var st := Feed(xs, gtts, pytts);
    SpokenFlush(st.units, st.bloque, st.actual, gtts, pytts);
  }

  /** A block handed to the engines, with its language. */
  type Block = (seq<string>, string)

  /** The block and language of each speech unit, in order. */
  function Blocks(units: seq<Unit>): seq<Block>
  {
    if units == [] then []
    else
      Blocks(units[..|units| - 1]) +
      match units[|units| - 1]
      case Silence(_) => []
      case Speech(_, _, ws, l) => [(ws, l)]
  }

  /** The words of the blocks, each with its block's language. */
  function Flat(bs: seq<Block>): seq<(string, string)>
  {
    if bs == [] then [] else Flat(bs[..|bs| - 1]) + Pending(bs[|bs| - 1].0, bs[|bs| - 1].1)
  }

  /** The blocks for which the engines give a unit, in order. */
  function Surviving(bs: seq<Block>, gtts: Engine, pytts: Engine): seq<Block>
  {
    if bs == [] then []
    else
      var b := bs[|bs| - 1];
      Surviving(bs[..|bs| - 1], gtts, pytts) + (if Generate(b.0, b.1, gtts, pytts).Some? then [b] else [])
  }

  /** An engine that never fails, used to name the blocks the loop hands
      to the engines. */
  const Perfect: Engine := (ws: seq<string>, l: string) => Returned(Some(Clip([])))

  lemma BlocksSnoc(units: seq<Unit>, u: Unit)
    ensures Blocks(units + [u]) == Blocks(units) + Blocks([u])
  {
    assert (units + [u])[..|units|] == units;
    assert [u][..0] == [];
  }

  lemma BlocksAddSilence(units: seq<Unit>, d: int)
    ensures Blocks(AddSilence(units, d)) == Blocks(units)
  {
    if units != [] && units[|units| - 1].Silence? {
      var init := units[..|units| - 1];
      assert units == init + [units[|units| - 1]];
      BlocksSnoc(init, units[|units| - 1]);
      BlocksSnoc(init, AddSilence(units, d)[|units| - 1]);
      assert AddSilence(units, d) == init + [AddSilence(units, d)[|units| - 1]];
    } else {
      BlocksSnoc(units, Silence(d));
    }
  }

  lemma SurvivingSnoc(bs: seq<Block>, b: Block, gtts: Engine, pytts: Engine)
    ensures Surviving(bs + [b], gtts, pytts) ==
            Surviving(bs, gtts, pytts) + (if Generate(b.0, b.1, gtts, pytts).Some? then [b] else [])
  {
    assert (bs + [b])[..|bs|] == bs;
  }

  /** Whatever the engines do, a flush keeps a unit exactly for the block
      a never-failing engine would voice, when the engines voice it. */
  lemma FlushBlockSurvives(ug: seq<Unit>, up: seq<Unit>, bloque: seq<string>, l: string, gtts: Engine, pytts: Engine)
    requires Blocks(ug) == Surviving(Blocks(up), gtts, pytts)
    ensures Blocks(FlushBlock(ug, bloque, l, gtts, pytts)) ==
            Surviving(Blocks(FlushBlock(up, bloque, l, Perfect, Perfect)), gtts, pytts)
  {
    if bloque != [] {
      var p := Speech(Clip([]), GTTS, bloque, l);
      assert FlushBlock(up, bloque, l, Perfect, Perfect) == up + [p];
      BlocksSnoc(up, p);
      assert Blocks([p]) == [(bloque, l)] by { assert [p][..0] == []; }
      SurvivingSnoc(Blocks(up), (bloque, l), gtts, pytts);
      var r := Generate(bloque, l, gtts, pytts);
      if r.Some? {
        BlocksSnoc(ug, r.value);
        assert Blocks([r.value]) == [(bloque, l)] by { assert [r.value][..0] == []; }
      }
    }
  }

  /** The loop run with any engines keeps the same block and language as
      the loop run with a never-failing engine, and its speech units are
      that run's blocks for which the engines give a unit. */
  predicate Tracks(sg: Batch, sp: Batch, gtts: Engine, pytts: Engine)
  {
    sg.bloque == sp.bloque && sg.actual == sp.actual &&
    Blocks(sg.units) == Surviving(Blocks(sp.units), gtts, pytts)
  }

  lemma StepTracks(sg: Batch, sp: Batch, x: Tagged, gtts: Engine, pytts: Engine)
    requires Tracks(sg, sp, gtts, pytts)
    ensures Tracks(Step(sg, x, gtts, pytts), Step(sp, x, Perfect, Perfect), gtts, pytts)
  {
    FlushBlockSurvives(sg.units, sp.units, sg.bloque, sg.actual, gtts, pytts);
    if x.1.None? {
      var ug := FlushBlock(sg.units, sg.bloque, sg.actual, gtts, pytts);
      var up := FlushBlock(sp.units, sp.bloque, sp.actual, Perfect, Perfect);
      BlocksAddSilence(ug, MaxPause(x.0));
      BlocksAddSilence(up, MaxPause(x.0));
    } else {
      var lang := x.1.value;
      var actual := if sg.bloque == [] && lang != sg.actual then lang else sg.actual;
      FlushBlockSurvives(sg.units, sp.units, sg.bloque, actual, gtts, pytts);
    }
  }

  lemma {:induction false} FeedTracks(xs: seq<Tagged>, gtts: Engine, pytts: Engine)
    ensures Tracks(Feed(xs, gtts, pytts), Feed(xs, Perfect, Perfect), gtts, pytts)
  {
    if xs != [] {
      var init := xs[..|xs| - 1];
      FeedTracks(init, gtts, pytts);
      StepTracks(Feed(init, gtts, pytts), Feed(init, Perfect, Perfect), xs[|xs| - 1], gtts, pytts);
    }
  }

  /** Whatever the engines do, the speech units are, in order, the blocks
      the loop hands to the engines for which generation gives a unit; the
      blocks themselves do not depend on the engines. */
  lemma ConvertKeepsBlocks(xs: seq<Tagged>, gtts: Engine, pytts: Engine)
    ensures Blocks(Convert(xs, gtts, pytts)) == Surviving(Blocks(Convert(xs, Perfect, Perfect)), gtts, pytts)
  {
    FeedTracks(xs, gtts, pytts);
    var sg := Feed(xs, gtts, pytts);
    FlushBlockSurvives(sg.units, Feed(xs, Perfect, Perfect).units, sg.bloque, sg.actual, gtts, pytts);
  }

  /** The spoken words are the words of the units' blocks. */
  lemma {:induction false} SpokenBlocks(units: seq<Unit>)
    ensures Spoken(units) == Flat(Blocks(units))
  {
    if units != [] {
      var init := units[..|units| - 1];
      var u := units[|units| - 1];
      SpokenBlocks(init);
      if u.Speech? {
        var bs := Blocks(init);
        var b := (u.palabras, u.idioma);
        assert Blocks(units) == bs + [b];
        assert (bs + [b])[..|bs|] == bs;
        assert Flat(bs + [b]) == Flat(bs) + Pending(u.palabras, u.idioma);
        assert Spoken(units) == Spoken(init) + Pending(u.palabras, u.idioma);
      } else {
        assert Blocks(units) == Blocks(init) + [] == Blocks(init);
        assert Spoken(units) == Spoken(init) + [] == Spoken(init);
      }
    }
  }

  /** Whatever the engines do, the words the loop hands to the engines
      split into blocks that together are exactly the language-tagged
      words, in order, and what is spoken is the concatenation of those
      blocks for which generation gives a unit: every spoken word keeps
      its language and its place, and a failed generation loses one whole
      block and nothing else. */
  lemma ConvertSpeaksSurvivingBlocks(xs: seq<Tagged>, gtts: Engine, pytts: Engine)
    ensures var bs := Blocks(Convert(xs, Perfect, Perfect));
            Flat(bs) == Words(xs) &&
            Blocks(Convert(xs, gtts, pytts)) == Surviving(bs, gtts, pytts) &&
            Spoken(Convert(xs, gtts, pytts)) == Flat(Surviving(bs, gtts, pytts))
  {
    assert AlwaysSpeaks(Perfect);
    ConvertSpeaksWords(xs, Perfect, Perfect);
    SpokenBlocks(Convert(xs, Perfect, Perfect));
    ConvertKeepsBlocks(xs, gtts, pytts);
    SpokenBlocks(Convert(xs, gtts, pytts));
  }
}
