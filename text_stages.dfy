/** `procesado_datos/procesar_texto.py`, first two stages:
    `ObtenerTokens.procesar` splits a text into sentence records, and
    `MarcarSilencios.procesar` adds a pause flag and a pause length to every
    cleaned token. Token records are Python dictionaries, modelled as maps
    from field name to value. */
module TextStages {
  import opened Base
  import opened Text
  import opened TokenCleaning

  /** A token record: `{'token': ..., 'es_palabra': ..., ...}`. */
  type Fields = map<string, PyValue>

  /** `ObtenerTokens.procesar`: a non-string or blank input gives no
      records; otherwise newlines become spaces, the sentence tokenizer
      splits the text, and every sentence gives one record, in order, with
      the word tokenizer's tokens. */
  method ObtainTokens(texto: PyValue, sentences: string -> seq<string>, words: string -> seq<string>)
    returns (resultado: seq<Segment>)
    ensures !texto.PyStr? || IsBlank(texto.s) ==> resultado == []
    ensures texto.PyStr? && !IsBlank(texto.s) ==>
              var oraciones := sentences(Replace(texto.s, "\n", " "));
              |resultado| == |oraciones|
              && forall i :: 0 <= i < |oraciones| ==> resultado[i] == Segment(oraciones[i], words(oraciones[i]))
  {
    if !texto.PyStr? || IsBlank(texto.s) {
      return [];
    }
    var oraciones := sentences(Replace(texto.s, "\n", " "));
    resultado := [];
    for k := 0 to |oraciones|
      invariant |resultado| == k
      invariant forall i :: 0 <= i < k ==> resultado[i] == Segment(oraciones[i], words(oraciones[i]))
    {
      resultado := resultado + [Segment(oraciones[k], words(oraciones[k]))];
    }
  }

  /** The default pause table of `MarcarSilencios`, in milliseconds. */
  const DefaultSilences: map<string, int> :=
    map["." := 600, "!" := 650, "?" := 650, ";" := 500, ":" := 500, "..." := 700, "," := 300,
        "(" := 250, ")" := 400, "[" := 250, "]" := 400, "{" := 250, "}" := 400,
        "\"" := 200, "'" := 200, "\n" := 500]

  /** `signos_silencio or {...}`: a missing or empty table gives the default. */
  function SilenceTable(signos: Option<map<string, int>>): (t: map<string, int>)
    ensures signos.Some? && |signos.value| > 0 ==> t == signos.value
    ensures signos.None? || signos.value == map[] ==> t == DefaultSilences
  {
    if signos.Some? && |signos.value| > 0 then signos.value else DefaultSilences
  }

  /** The record has a `'token'` field holding a string. */
  predicate HasTokenText(info: Fields)
  {
    "token" in info && info["token"].PyStr?
  }

  /** `token_info.get('es_puntuacion', True)`. */
  function PunctuationFlag(info: Fields): PyValue
  {
    if "es_puntuacion" in info then info["es_puntuacion"] else PyBool(true)
  }

  /** One step of the inner loop of `MarcarSilencios.procesar`.
      `token in tabla and flag` evaluates to the flag itself when the token
      is a key, so `'silencio'` holds that value, not necessarily a bool. */
  function MarkToken(tabla: map<string, int>, info: Fields): (r: Fields)
    requires HasTokenText(info)
    ensures r.Keys == info.Keys + {"silencio", "tiempo"}
    ensures forall k :: k in info && k != "silencio" && k != "tiempo" ==> r[k] == info[k]
    ensures Truthy(r["silencio"]) <==> info["token"].s in tabla && Truthy(PunctuationFlag(info))
    ensures r["tiempo"] == PyInt(if Truthy(r["silencio"]) then tabla[info["token"].s] else 0)
  {
    var token := info["token"].s;
    var silencio := if token in tabla then PunctuationFlag(info) else PyBool(false);
    var tiempo := if Truthy(silencio) then tabla[token] else 0;
    info["silencio" := silencio]["tiempo" := PyInt(tiempo)]
  }

  /** A segment as the later stages see it: `{'linea', 'tokens_limpios'}`. */
  datatype Line = Line(linea: string, tokensLimpios: seq<Fields>)

  predicate AllHaveTokenText(segmentos: seq<Line>)
  {
    forall i, j :: 0 <= i < |segmentos| && 0 <= j < |segmentos[i].tokensLimpios| ==>
      HasTokenText(segmentos[i].tokensLimpios[j])
  }

  /** The inner loop: every token of one segment, in order. */
  method MarkLine(tabla: map<string, int>, tokens: seq<Fields>) returns (marcados: seq<Fields>)
    requires forall j :: 0 <= j < |tokens| ==> HasTokenText(tokens[j])
    ensures |marcados| == |tokens|
    ensures forall j :: 0 <= j < |tokens| ==> marcados[j] == MarkToken(tabla, tokens[j])
  {
    marcados := [];
    for j := 0 to |tokens|
      invariant |marcados| == j
      invariant forall m :: 0 <= m < j ==> marcados[m] == MarkToken(tabla, tokens[m])
    {
      marcados := marcados + [MarkToken(tabla, tokens[j])];
    }
  }

  /** `MarcarSilencios.procesar` with the table chosen by the constructor:
      the number of segments, each `linea`, and the number and order of
      tokens are kept, and every token is marked on its own. */
  method MarkSilences(signos: Option<map<string, int>>, segmentos: seq<Line>) returns (resultado: seq<Line>)
    requires AllHaveTokenText(segmentos)
    ensures |resultado| == |segmentos|
    ensures forall i :: 0 <= i < |segmentos| ==>
              resultado[i].linea == segmentos[i].linea
              && |resultado[i].tokensLimpios| == |segmentos[i].tokensLimpios|
              && forall j :: 0 <= j < |segmentos[i].tokensLimpios| ==>
                   resultado[i].tokensLimpios[j] == MarkToken(SilenceTable(signos), segmentos[i].tokensLimpios[j])
  {
    var tabla := SilenceTable(signos);
    resultado := [];
    for k := 0 to |segmentos|
      invariant |resultado| == k
      invariant forall i :: 0 <= i < k ==>
                  resultado[i].linea == segmentos[i].linea
                  && |resultado[i].tokensLimpios| == |segmentos[i].tokensLimpios|
                  && forall j :: 0 <= j < |segmentos[i].tokensLimpios| ==>
                       resultado[i].tokensLimpios[j] == MarkToken(tabla, segmentos[i].tokensLimpios[j])
    {
      var marcados := MarkLine(tabla, segmentos[k].tokensLimpios);
      resultado := resultado + [Line(segmentos[k].linea, marcados)];
    }
  }

  /** An ellipsis pauses for 700 ms; two dots are not a key and do not pause. */
  lemma EllipsisPause(info: Fields, other: Fields)
    requires HasTokenText(info) && info["token"].s == "..." && Truthy(PunctuationFlag(info))
    requires HasTokenText(other) && other["token"].s == ".."
    ensures MarkToken(DefaultSilences, info)["tiempo"] == PyInt(700)
    ensures MarkToken(DefaultSilences, other)["tiempo"] == PyInt(0)
    ensures !Truthy(MarkToken(DefaultSilences, other)["silencio"])
  {
    assert ".." !in DefaultSilences;
  }

  /** The record `limpiar_token` returns, as a dictionary. */
  function AsFields(t: TokenInfo): (r: Fields)
    ensures HasTokenText(r) && r["token"] == PyStr(t.token)
    ensures PunctuationFlag(r) == PyBool(t.esPuntuacion)
  {
    map["token" := PyStr(t.token), "es_palabra" := PyBool(t.esPalabra), "es_puntuacion" := PyBool(t.esPuntuacion)]
  }

  /** The table keys a cleaned token can match with its punctuation flag set. */
  const PunctuationKeys: set<string> := {".", "!", "?", ";", ":", "...", ","}

  /** Stripping a token that matches the punctuation pattern leaves
      punctuation characters only: a final newline is whitespace and goes. */
  lemma StrippedPunctuation(raw: string)
    requires PunctMatch(raw)
    ensures forall i :: 0 <= i < |Strip(raw)| ==> IsLinePunctChar(Strip(raw)[i])
  {
    StripSpec(raw);
    var s := Strip(raw);
    var a := |raw| - |TrimStartBy(raw, IsSpace)|;
    assert StrippedAt(raw, a, s);
    forall i | 0 <= i < |s| ensures IsLinePunctChar(s[i]) {
      assert s[i] == raw[a + i];
      if !AllPunct(raw) {
        assert a + i < |raw| - 1 by {
          assert IsSpace(raw[|raw| - 1]);
          assert s[|s| - 1] == raw[a + |s| - 1];
        }
        assert raw[..|raw| - 1][a + i] == raw[a + i];
      }
    }
  }

  /** Lowering leaves punctuation characters alone. */
  lemma LowerKeepsPunctuation(s: string)
    requires forall i :: 0 <= i < |s| ==> IsLinePunctChar(s[i])
    ensures Lower(s) == s
  {
  }

  /** A cleaned token flagged as punctuation consists of punctuation
      characters only. */
  lemma CleanedPunctuationChars(raw: string)
    requires CleanToken(raw).esPuntuacion
    ensures forall i :: 0 <= i < |CleanToken(raw).token| ==> IsLinePunctChar(CleanToken(raw).token[i])
  {
    StrippedPunctuation(raw);
    LowerKeepsPunctuation(Strip(raw));
  }

  /** The default keys made of punctuation characters are exactly the
      punctuation keys. */
  lemma PunctuationDefaultKey(k: string)
    requires k in DefaultSilences && |k| > 0 && IsLinePunctChar(k[0])
    ensures k in PunctuationKeys
  {
  }

  /** Conversely, every punctuation key is a default key made of
      punctuation characters only. */
  lemma PunctuationKeysAreDefault(k: string)
    requires k in PunctuationKeys
    ensures k in DefaultSilences && AllPunct(k)
  {
  }

  /** Chained after `limpiar_token`, only the punctuation keys of the default
      table can ever pause: a bracket, a quote or a newline is not
      punctuation for `limpiar_token`, and stripping removes the newline. */
  lemma OnlyPunctuationKeysPause(raw: string)
    ensures var r := MarkToken(DefaultSilences, AsFields(CleanToken(raw)));
            Truthy(r["silencio"]) ==> CleanToken(raw).token in PunctuationKeys
  {
    var c := CleanToken(raw);
    var f := AsFields(c);
    if Truthy(MarkToken(DefaultSilences, f)["silencio"]) {
      assert c.token in DefaultSilences && c.esPuntuacion;
      CleanedPunctuationChars(raw);
      assert c.token != [] by {
        assert IsLinePunctChar(raw[0]) by {
          if !AllPunct(raw) { assert raw[..|raw| - 1][0] == raw[0]; }
        }
        assert !IsBlank(raw);
      }
      PunctuationDefaultKey(c.token);
    }
  }
}
