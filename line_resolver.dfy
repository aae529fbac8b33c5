/** Per-line language resolution (`ProcesadoDatos` in `Procesado_datos.py`):
    the line language with its fallback, the forced-English prefix run, the
    rule cascade for single protected words and protected phrases, and the
    whole-text driver that ends every line with a pause.

    The sentence and word tokenizers, the classifier and the two stopword
    lists are given in an `Env`: they are foreign code this model does not
    look inside. */
module LineResolver {
  import opened Base
  import opened Text
  import opened Language
  import opened SpanScanner

  /** What the pipeline calls on: `sent_tokenize`, `word_tokenize`,
      `langid.classify` and the `STOP_ES` / `STOP_EN` sets. */
  datatype Env = Env(
    sentences: string -> seq<string>,
    words: string -> seq<string>,
    classify: Classifier,
    stopEs: set<string>,
    stopEn: set<string>)

  /** `(token, idioma)`: a language, or `None` for a pause. */
  datatype Tagged = Tagged(text: string, lang: Option<Lang>)

  /** The end-of-line pause `('.', None)`. */
  const EndMark: Tagged := Tagged(".", None)

  /** The `prob_linea` bucket handed to `procesar_palabras`. */
  datatype Bucket = High | Med | Low

  function BucketOf(prob: real): (b: Bucket)
    ensures b == High <==> prob >= 0.9
    ensures b == Low <==> prob < 0.6
  {
    if prob >= 0.9 then High else if prob >= 0.6 then Med else Low
  }

  /** `(palabra, idioma, probabilidad)` as `procesar_palabras` returns it. */
  datatype WordVerdict = WordVerdict(word: string, lang: Lang, confidence: real)

  /** `ProcesadoDatos.procesar_palabras`. */
  function ClassifyWord(palabra: string, hint: Option<Lang>, parenthesized: bool, bucket: Bucket,
                        classify: Classifier): (r: Option<WordVerdict>)
    ensures palabra == [] ==> r.None?
    ensures r.Some? ==> r.value.word == palabra
    ensures palabra != [] && HasMark(palabra, SpanishMarks) ==> r == Some(WordVerdict(palabra, Spanish, 1.0))
  {
    if palabra == [] then None
    else if HasMark(palabra, SpanishMarks) then Some(WordVerdict(palabra, Spanish, 1.0))
    else
      match classify(palabra)
      case ClassifierError => None
      case Classified(code, p) =>
        if CodeToLang(code).None? then None
        else
          var lang := CodeToLang(code).value;
          var prob := NormalizeScore(Score(p));
          if parenthesized then
            if prob >= 0.95 then Some(WordVerdict(palabra, lang, prob))
            else if bucket == High && lang == English && prob >= 0.90 then Some(WordVerdict(palabra, English, prob))
            else Some(WordVerdict(palabra, if hint.Some? then hint.value else Spanish, 0.99))
          else if prob >= 0.95 then Some(WordVerdict(palabra, lang, prob))
          else None
  }

  /** An unprotected word is accepted exactly when it carries a Spanish mark
      or the classifier names Spanish or English with a raw score of at
      least 3.0 (the only step at or above 0.95); the language is then the
      classifier's. */
  lemma UnprotectedWordAcceptance(palabra: string, hint: Option<Lang>, bucket: Bucket, classify: Classifier)
    requires palabra != [] && !HasMark(palabra, SpanishMarks)
    ensures ClassifyWord(palabra, hint, false, bucket, classify).Some? <==>
              classify(palabra).Classified? && CodeToLang(classify(palabra).code).Some?
              && classify(palabra).score >= 3.0
    ensures ClassifyWord(palabra, hint, false, bucket, classify).Some? ==>
              Some(ClassifyWord(palabra, hint, false, bucket, classify).value.lang) == CodeToLang(classify(palabra).code)
              && ClassifyWord(palabra, hint, false, bucket, classify).value.confidence == 0.99
  {
    if classify(palabra).Classified? {
      HighConfidenceIsTopStep(classify(palabra).score);
    }
  }

  /** A protected (parenthesized) word is never rejected once the classifier
      names Spanish or English: it takes the classifier's language at a raw
      score of 3.0 or more, English on a high-confidence line at 1.0 or more,
      and otherwise the hint (Spanish without one) at 0.99. */
  lemma ParenthesizedWordVerdict(palabra: string, hint: Option<Lang>, bucket: Bucket, classify: Classifier)
    requires palabra != [] && !HasMark(palabra, SpanishMarks)
    requires classify(palabra).Classified? && CodeToLang(classify(palabra).code).Some?
    ensures var r := ClassifyWord(palabra, hint, true, bucket, classify);
            var p := classify(palabra).score;
            var lang := CodeToLang(classify(palabra).code).value;
            r.Some?
            && (p >= 3.0 ==> r.value.lang == lang)
            && (p < 3.0 && bucket == High && lang == English && p >= 1.0 ==> r.value.lang == English)
            && (p < 3.0 && !(bucket == High && lang == English && p >= 1.0) ==>
                  r.value == WordVerdict(palabra, if hint.Some? then hint.value else Spanish, 0.99))
  {
    HighConfidenceIsTopStep(classify(palabra).score);
  }

  /** The language a line is processed in and its confidence. */
  datatype LineContext = LineContext(lang: Lang, prob: real)

  /** The line detection, falling back to the hint (Spanish without one) at
      probability 0.0 when it is inconclusive. */
  function LineLanguage(linea: string, hint: Option<Lang>, classify: Classifier): (ctx: LineContext)
    ensures DetectText(linea, classify).lang.Some? ==>
              ctx == LineContext(DetectText(linea, classify).lang.value, DetectText(linea, classify).confidence)
    ensures DetectText(linea, classify).lang.None? ==>
              ctx == LineContext(if hint.Some? then hint.value else Spanish, 0.0)
  {
    var d := DetectText(linea, classify);
    if d.lang.Some? then LineContext(d.lang.value, d.confidence)
    else LineContext(if hint.Some? then hint.value else Spanish, 0.0)
  }

  /** A token counts towards the English prefix when the classifier names
      English with a normalized confidence of at least 0.95. */
  predicate Qualifies(token: string, classify: Classifier)
  {
    var r := classify(token);
    r.Classified? && r.code == "en" && NormalizeScore(Score(r.score)) >= 0.95
  }

  /** The prefix scan from entry `k` on: it stops at the first entry that is
      not a plain word or does not qualify, or once four have been counted. */
  function Run(info: seq<Entry>, k: nat, classify: Classifier): (n: nat)
    requires k <= |info|
    ensures k <= n <= |info|
    ensures k <= 4 ==> n <= 4
    ensures forall j :: k <= j < n ==> info[j].kind == Word && Qualifies(info[j].text, classify)
    ensures n < |info| && n < 4 ==> info[n].kind != Word || !Qualifies(info[n].text, classify)
    decreases |info| - k
  {
    if k == |info| || k >= 4 || info[k].kind != Word || !Qualifies(info[k].text, classify) then k
    else Run(info, k + 1, classify)
  }

  /** `cantidad_prefijos`: the scan runs only on an English line or one
      below 0.6, and a count under three is discarded. */
  function PrefixRun(info: seq<Entry>, ctx: LineContext, classify: Classifier): nat
  {
    if ctx.lang == English || ctx.prob < 0.6 then
      var n := Run(info, 0, classify);
      if n < 3 then 0 else n
    else 0
  }

  /** The prefix run is 0, 3 or 4; a non-zero run needs an English or
      low-confidence line, covers only plain words that qualify, and stops
      at the first entry that would not (or at four). */
  lemma PrefixRunShape(info: seq<Entry>, ctx: LineContext, classify: Classifier)
    ensures var n := PrefixRun(info, ctx, classify); n == 0 || n == 3 || n == 4
    ensures var n := PrefixRun(info, ctx, classify);
            n > 0 ==>
              (ctx.lang == English || ctx.prob < 0.6) && n <= |info|
              && (forall j :: 0 <= j < n ==> info[j].kind == Word && Qualifies(info[j].text, classify))
              && (n < |info| && n < 4 ==> info[n].kind != Word || !Qualifies(info[n].text, classify))
    ensures !(ctx.lang == English || ctx.prob < 0.6) ==> PrefixRun(info, ctx, classify) == 0
  {
  }

  /** A token qualifies for the prefix exactly when the classifier names
      English with a raw score of at least 3.0. */
  lemma QualifiesIffTopScore(token: string, classify: Classifier)
    ensures Qualifies(token, classify) <==>
              classify(token).Classified? && classify(token).code == "en" && classify(token).score >= 3.0
  {
    if classify(token).Classified? {
      HighConfidenceIsTopStep(classify(token).score);
    }
  }

  /** The Spanish suffixes that veto an English verdict on a protected word. */
  const SpanishSuffixes: seq<string> :=
    ["ción", "ciones", "es", "as", "os", "ante", "mente", "idad", "able", "ible", "ista", "aje", "anza",
     "ico", "ica", "ar", "ir", "er"]

  predicate HasSpanishSuffix(w: string)
  {
    exists k :: 0 <= k < |SpanishSuffixes| && EndsWith(w, SpanishSuffixes[k])
  }

  /** Some lowercased token of `ws` is in `stop`. */
  predicate AnyStopword(ws: seq<string>, stop: set<string>)
  {
    exists i :: 0 <= i < |ws| && Lower(ws[i]) in stop
  }

  /** The rule cascade for a single protected word: a Spanish mark, then a
      Spanish stopword, then an English stopword (all three keep the token
      as written); otherwise the word classifier on the lowercased token,
      the line language when it abstains, and the suffix veto on English.
      The classifier path emits the token lowercased. */
  function ResolveProtectedWord(token: string, ctx: LineContext, env: Env): (t: Tagged)
    ensures t.lang.Some?
    ensures HasMark(token, SpanishMarks) ==> t == Tagged(token, Some(Spanish))
    ensures !HasMark(token, SpanishMarks) && AnyStopword(env.words(token), env.stopEs) ==>
              t == Tagged(token, Some(Spanish))
    ensures (!HasMark(token, SpanishMarks) && !AnyStopword(env.words(token), env.stopEs)
             && AnyStopword(env.words(token), env.stopEn)) ==> t == Tagged(token, Some(English))
    ensures (!HasMark(token, SpanishMarks) && !AnyStopword(env.words(token), env.stopEs)
             && !AnyStopword(env.words(token), env.stopEn)) ==>
              t.text == Lower(token) && (t.lang == Some(English) ==> !HasSpanishSuffix(Lower(token)))
    ensures (!HasMark(token, SpanishMarks) && !AnyStopword(env.words(token), env.stopEs)
             && !AnyStopword(env.words(token), env.stopEn) && HasSpanishSuffix(Lower(token))) ==>
              t.lang == Some(Spanish)
    ensures (!HasMark(token, SpanishMarks) && !AnyStopword(env.words(token), env.stopEs)
             && !AnyStopword(env.words(token), env.stopEn) && !HasSpanishSuffix(Lower(token))) ==>
              var verdict := ClassifyWord(Lower(token), Some(ctx.lang), false, BucketOf(ctx.prob), env.classify);
              (verdict.None? ==> t.lang == Some(ctx.lang)) && (verdict.Some? ==> t.lang == Some(verdict.value.lang))
  {
    if HasMark(token, SpanishMarks) then Tagged(token, Some(Spanish))
    else if AnyStopword(env.words(token), env.stopEs) then Tagged(token, Some(Spanish))
    else if AnyStopword(env.words(token), env.stopEn) then Tagged(token, Some(English))
    else
      var lowered := Lower(token);
      var verdict := ClassifyWord(lowered, Some(ctx.lang), false, BucketOf(ctx.prob), env.classify);
      var chosen := if verdict.None? then ctx.lang else verdict.value.lang;
      if chosen == English && HasSpanishSuffix(lowered) then Tagged(lowered, Some(Spanish))
      else
        assert chosen == Spanish || !HasSpanishSuffix(lowered);
        Tagged(lowered, Some(chosen))
  }

  /** The one language a protected phrase is given: a Spanish mark, else
      the text detector when it is conclusive at 0.40 or more, else the
      Spanish then the English stopwords, else the line language. */
  function PhraseLanguage(texto: string, ctx: LineContext, env: Env): (l: Lang)
    ensures HasMark(texto, SpanishMarks) ==> l == Spanish
    ensures !HasMark(texto, SpanishMarks) && DetectText(texto, env.classify).lang.Some? ==>
              l == DetectText(texto, env.classify).lang.value
    ensures (!HasMark(texto, SpanishMarks) && DetectText(texto, env.classify).lang.None?
             && AnyStopword(env.words(texto), env.stopEs)) ==> l == Spanish
    ensures (!HasMark(texto, SpanishMarks) && DetectText(texto, env.classify).lang.None?
             && !AnyStopword(env.words(texto), env.stopEs) && AnyStopword(env.words(texto), env.stopEn)) ==>
              l == English
    ensures (!HasMark(texto, SpanishMarks) && DetectText(texto, env.classify).lang.None?
             && !AnyStopword(env.words(texto), env.stopEs) && !AnyStopword(env.words(texto), env.stopEn)) ==>
              l == ctx.lang
  {
    if HasMark(texto, SpanishMarks) then Spanish
    else
      var d := DetectText(texto, env.classify);
      if d.lang.Some? && d.confidence >= 0.40 then d.lang.value
      else if AnyStopword(env.words(texto), env.stopEs) then Spanish
      else if AnyStopword(env.words(texto), env.stopEn) then English
      else ctx.lang
  }

  /** The phrase's inner tokens, each cleaned of surrounding delimiters,
      the empty ones dropped, all tagged with the phrase language. */
  function PhraseTokens(ts: seq<string>, lang: Lang): (out: seq<Tagged>)
    ensures |out| <= |ts|
    ensures forall t :: t in out ==> t.lang == Some(lang) && t.text != []
    decreases |ts|
  {
    if ts == [] then []
    else
      var c := StripDelims(ts[|ts| - 1]);
      PhraseTokens(ts[..|ts| - 1], lang) + (if c != [] then [Tagged(c, Some(lang))] else [])
  }

  /** The reference reading of the phrase loop: the inner tokens in order,
      each cleaned of surrounding delimiters, the empty ones dropped. */
  function CleanedWords(ts: seq<string>): (ws: seq<string>)
    ensures |ws| <= |ts|
    ensures forall w :: w in ws ==> w != []
  {
    if ts == [] then []
    else
      var c := StripDelims(ts[0]);
      (if c != [] then [c] else []) + CleanedWords(ts[1..])
  }

  lemma {:induction false} CleanedWordsSnoc(ts: seq<string>, x: string)
    ensures CleanedWords(ts + [x]) ==
            CleanedWords(ts) + (if StripDelims(x) != [] then [StripDelims(x)] else [])
    decreases |ts|
  {
    if ts == [] {
      assert [] + [x] == [x];
      assert [x][1..] == [];
    } else {
      var c := StripDelims(ts[0]);
      var head := if c != [] then [c] else [];
      var tail := if StripDelims(x) != [] then [StripDelims(x)] else [];
      assert (ts + [x])[0] == ts[0];
      assert (ts + [x])[1..] == ts[1..] + [x];
      assert CleanedWords(ts + [x]) == head + CleanedWords(ts[1..] + [x]);
      CleanedWordsSnoc(ts[1..], x);
      assert CleanedWords(ts) == head + CleanedWords(ts[1..]);
      assert head + (CleanedWords(ts[1..]) + tail) == (head + CleanedWords(ts[1..])) + tail;
    }
  }

  /** The phrase emits exactly the cleaned non-empty inner tokens, in
      order, each tagged with the phrase language. */
  lemma {:induction false} PhraseTokensAreCleanedWords(ts: seq<string>, lang: Lang)
    ensures |PhraseTokens(ts, lang)| == |CleanedWords(ts)|
    ensures forall i :: 0 <= i < |CleanedWords(ts)| ==>
              PhraseTokens(ts, lang)[i] == Tagged(CleanedWords(ts)[i], Some(lang))
    decreases |ts|
  {
    if ts != [] {
      var init := ts[..|ts| - 1];
      var x := ts[|ts| - 1];
      assert ts == init + [x];
      PhraseTokensAreCleanedWords(init, lang);
      CleanedWordsSnoc(init, x);
    }
  }

  lemma {:induction false} CleanedWordsKeepAll(ts: seq<string>)
    requires forall i :: 0 <= i < |ts| ==> StripDelims(ts[i]) != []
    ensures |CleanedWords(ts)| == |ts|
    ensures forall i :: 0 <= i < |ts| ==> CleanedWords(ts)[i] == StripDelims(ts[i])
    decreases |ts|
  {
    if ts != [] {
      assert forall i :: 0 <= i < |ts[1..]| ==> StripDelims(ts[1..][i]) != [] by {
        forall i | 0 <= i < |ts[1..]| ensures StripDelims(ts[1..][i]) != [] {
          assert ts[1..][i] == ts[i + 1];
        }
      }
      CleanedWordsKeepAll(ts[1..]);
    }
  }

  /** When no inner token cleans to nothing, the phrase emits one tagged
      token per inner token, in order. */
  lemma PhraseTokensKeepAll(ts: seq<string>, lang: Lang)
    requires forall i :: 0 <= i < |ts| ==> StripDelims(ts[i]) != []
    ensures |PhraseTokens(ts, lang)| == |ts|
    ensures forall i :: 0 <= i < |ts| ==> PhraseTokens(ts, lang)[i] == Tagged(StripDelims(ts[i]), Some(lang))
  {
    PhraseTokensAreCleanedWords(ts, lang);
    CleanedWordsKeepAll(ts);
  }

  /** What the main loop appends for entry `n`. */
  function ResolveAt(info: seq<Entry>, n: nat, ctx: LineContext, run: nat, env: Env): seq<Tagged>
    requires n < |info|
  {
    var e := info[n];
    if e.kind == Punct then [Tagged(e.text, None)]
    else if n < run then [Tagged(e.text, Some(English))]
    else if e.kind == ProtectedWord then [ResolveProtectedWord(e.text, ctx, env)]
    else if e.kind == ProtectedPhrase then PhraseTokens(env.words(e.text), PhraseLanguage(e.text, ctx, env))
    else [Tagged(e.text, Some(ctx.lang))]
  }

  /** What the main loop has appended after the first `n` entries. */
  function ResolveUpTo(info: seq<Entry>, n: nat, ctx: LineContext, run: nat, env: Env): seq<Tagged>
    requires n <= |info|
  {
    if n == 0 then [] else ResolveUpTo(info, n - 1, ctx, run, env) + ResolveAt(info, n - 1, ctx, run, env)
  }

  /** `procesar_lineas(linea, idioma_hint)` as a function of its inputs. */
  function LineSpec(linea: string, hint: Option<Lang>, env: Env): seq<Tagged>
  {
    var ctx := LineLanguage(linea, hint, env.classify);
    var info := ScanFrom(env.words(linea), 0);
    ResolveUpTo(info, |info|, ctx, PrefixRun(info, ctx, env.classify), env)
  }

  /** The prefix scan of `procesar_lineas`. It visits the entries in
      order and every pass that does not stop counts one, so the count is
      also the index of the entry under test. */
  method CountPrefix(info: seq<Entry>, ctx: LineContext, classify: Classifier) returns (cantidad: nat)
    ensures cantidad == PrefixRun(info, ctx, classify)
  {
    cantidad := 0;
    if ctx.lang == English || ctx.prob < 0.6 {
      while cantidad < |info|
        invariant cantidad <= |info| && cantidad <= 4
        invariant Run(info, 0, classify) == Run(info, cantidad, classify)
        decreases |info| - cantidad
      {
        var e := info[cantidad];
        if e.kind != Word || cantidad >= 4 {
          break;
        }
        var r := classify(e.text);
        if r.Classified? && r.code == "en" && NormalizeScore(Score(r.score)) >= 0.95 {
          cantidad := cantidad + 1;
          continue;
        }
        break;
      }
      if cantidad < 3 {
        cantidad := 0;
      }
    }
  }

  /** One pass of the main loop of `procesar_lineas`: what it appends for
      entry `numero`. */
  method ResolveEntry(info: seq<Entry>, numero: nat, ctx: LineContext, cantidad: nat, env: Env)
    returns (nuevos: seq<Tagged>)
    requires numero < |info|
    ensures nuevos == ResolveAt(info, numero, ctx, cantidad, env)
  {
    var e := info[numero];
    if e.kind == Punct {
      return [Tagged(e.text, None)];
    }
    if numero < cantidad {
      return [Tagged(e.text, Some(English))];
    }
    if e.kind == ProtectedWord {
      return [ResolveProtectedWord(e.text, ctx, env)];
    }
    if e.kind == ProtectedPhrase {
      var elegido := PhraseLanguage(e.text, ctx, env);
      var internos := env.words(e.text);
      nuevos := [];
      var m := 0;
      while m < |internos|
        invariant m <= |internos|
        invariant nuevos == PhraseTokens(internos[..m], elegido)
        decreases |internos| - m
      {
        var limpio := StripDelims(internos[m]);
        assert internos[..m + 1][..m] == internos[..m];
        if limpio != [] {
          nuevos := nuevos + [Tagged(limpio, Some(elegido))];
        }
        m := m + 1;
      }
      assert internos[..m] == internos;
      return nuevos;
    }
    return [Tagged(e.text, Some(ctx.lang))];
  }

  /** `ProcesadoDatos.procesar_lineas`. */
  method ProcessLine(linea: string, hint: Option<Lang>, env: Env) returns (tokens: seq<Tagged>)
    ensures tokens == LineSpec(linea, hint, env)
  {
    var d := DetectText(linea, env.classify);
    var idioma := if d.lang.Some? then d.lang.value else (if hint.Some? then hint.value else Spanish);
    var prob := if d.lang.Some? then d.confidence else 0.0;
    var ctx := LineContext(idioma, prob);
    assert ctx == LineLanguage(linea, hint, env.classify);
    var info := CleanWords(Some(env.words(linea)));
    var cantidad := CountPrefix(info, ctx, env.classify);
    tokens := ResolveAll(info, ctx, cantidad, env);
  }

  /** The main loop of `procesar_lineas`, over every scanned entry. */
  method ResolveAll(info: seq<Entry>, ctx: LineContext, cantidad: nat, env: Env) returns (tokens: seq<Tagged>)
    ensures tokens == ResolveUpTo(info, |info|, ctx, cantidad, env)
  {
    tokens := [];
    for numero := 0 to |info|
      invariant tokens == ResolveUpTo(info, numero, ctx, cantidad, env)
    {
      tokens := AppendEntry(tokens, info, numero, ctx, cantidad, env);
    }
  }

  /** Appends what entry `numero` gives to what the loop has so far. */
  method AppendEntry(tokens: seq<Tagged>, info: seq<Entry>, numero: nat, ctx: LineContext, cantidad: nat, env: Env)
    returns (siguiente: seq<Tagged>)
    requires numero < |info| && tokens == ResolveUpTo(info, numero, ctx, cantidad, env)
    ensures siguiente == ResolveUpTo(info, numero + 1, ctx, cantidad, env)
  {
    var nuevos := ResolveEntry(info, numero, ctx, cantidad, env);
    siguiente := tokens + nuevos;
  }

  /** Every entry the line resolver emits without a language is a
      punctuation-only token, and every entry with a language has text. */
  lemma {:induction false} ResolvedTagsShape(info: seq<Entry>, n: nat, ctx: LineContext, run: nat, env: Env)
    requires n <= |info|
    requires forall e :: e in info ==> WellFormed(e)
    ensures forall t :: t in ResolveUpTo(info, n, ctx, run, env) ==>
              (t.lang.None? ==> IsPunctToken(t.text)) && (t.lang.Some? ==> t.text != [])
    decreases n
  {
    if n > 0 {
      ResolvedTagsShape(info, n - 1, ctx, run, env);
      var e := info[n - 1];
      assert WellFormed(e) by { assert e in info; }
      var last := ResolveAt(info, n - 1, ctx, run, env);
      assert forall t :: t in last ==> (t.lang.None? ==> IsPunctToken(t.text)) && (t.lang.Some? ==> t.text != []) by {
        if e.kind == ProtectedWord && n - 1 >= run {
          var r := ResolveProtectedWord(e.text, ctx, env);
          assert |Lower(e.text)| == |e.text|;
          assert r.text == e.text || r.text == Lower(e.text);
        }
      }
    }
  }

  /** In a resolved line a `None` language only ever sits on a
      punctuation-only token (`LinePauses` gives the converse). */
  lemma LineTagsShape(linea: string, hint: Option<Lang>, env: Env)
    ensures forall t :: t in LineSpec(linea, hint, env) ==>
              (t.lang.None? ==> IsPunctToken(t.text)) && (t.lang.Some? ==> t.text != [])
  {
    var info := ScanFrom(env.words(linea), 0);
    ScanWellFormed(env.words(linea), 0);
    var ctx := LineLanguage(linea, hint, env.classify);
    ResolvedTagsShape(info, |info|, ctx, PrefixRun(info, ctx, env.classify), env);
  }

  /** The number of pauses (entries without a language) in `ts`. */
  function PauseCount(ts: seq<Tagged>): nat
  {
    if ts == [] then 0 else PauseCount(ts[..|ts| - 1]) + (if ts[|ts| - 1].lang.None? then 1 else 0)
  }

  /** The number of punctuation entries in `info`. */
  function PunctCount(info: seq<Entry>): nat
  {
    if info == [] then 0 else PunctCount(info[..|info| - 1]) + (if info[|info| - 1].kind == Punct then 1 else 0)
  }

  lemma {:induction false} PauseCountConcat(a: seq<Tagged>, b: seq<Tagged>)
    ensures PauseCount(a + b) == PauseCount(a) + PauseCount(b)
    decreases |b|
  {
    if b == [] {
      assert a + b == a;
    } else {
      assert (a + b)[..|a + b| - 1] == a + b[..|b| - 1];
      PauseCountConcat(a, b[..|b| - 1]);
    }
  }

  lemma {:induction false} NoPauses(ts: seq<Tagged>)
    requires forall t :: t in ts ==> t.lang.Some?
    ensures PauseCount(ts) == 0
    decreases |ts|
  {
    if ts != [] {
      assert ts[|ts| - 1] in ts;
      assert forall t :: t in ts[..|ts| - 1] ==> t in ts;
      NoPauses(ts[..|ts| - 1]);
    }
  }

  lemma KeepsEarlier(prev: seq<Tagged>, extra: seq<Tagged>, j: nat)
    requires j < |prev|
    ensures j < |prev + extra| && (prev + extra)[j] == prev[j]
  {
  }

  /** Entry `n` yields a single pause when it is punctuation, and only
      entries with a language otherwise. */
  lemma PauseAt(info: seq<Entry>, n: nat, ctx: LineContext, run: nat, env: Env)
    requires n < |info|
    ensures info[n].kind == Punct ==> ResolveAt(info, n, ctx, run, env) == [Tagged(info[n].text, None)]
    ensures info[n].kind != Punct ==> forall t :: t in ResolveAt(info, n, ctx, run, env) ==> t.lang.Some?
  {
  }

  /** A resolved prefix holds one pause per punctuation entry: no other
      entry ever comes out without a language. */
  lemma {:induction false} ResolvedPauseCount(info: seq<Entry>, n: nat, ctx: LineContext, run: nat, env: Env)
    requires n <= |info|
    ensures PauseCount(ResolveUpTo(info, n, ctx, run, env)) == PunctCount(info[..n])
    decreases n
  {
    if n > 0 {
      ResolvedPauseCount(info, n - 1, ctx, run, env);
      var prev := ResolveUpTo(info, n - 1, ctx, run, env);
      var last := ResolveAt(info, n - 1, ctx, run, env);
      assert ResolveUpTo(info, n, ctx, run, env) == prev + last;
      PauseCountConcat(prev, last);
      assert info[..n][..n - 1] == info[..n - 1];
      assert PunctCount(info[..n]) == PunctCount(info[..n - 1]) + (if info[n - 1].kind == Punct then 1 else 0);
      PauseAt(info, n - 1, ctx, run, env);
      if info[n - 1].kind == Punct {
        assert PauseCount(last) == 1 by { assert last[..0] == []; }
      } else {
        NoPauses(last);
      }
    }
  }

  /** Position `j` of `ts` is the pause `(text, None)`. */
  predicate PauseAtIndex(ts: seq<Tagged>, j: int, text: string)
  {
    0 <= j < |ts| && ts[j] == Tagged(text, None)
  }

  /** `at(0) + at(1) + ... + at(n - 1)`. */
  function Concat(at: nat -> seq<Tagged>, n: nat): seq<Tagged>
  {
    if n == 0 then [] else Concat(at, n - 1) + at(n - 1)
  }

  /** A single-entry piece `at(k)` sits in the concatenation right after
      the pieces before it, however many pieces follow. */
  lemma {:induction false} ConcatPlacesSingle(at: nat -> seq<Tagged>, k: nat, n: nat, text: string)
    requires k < n && at(k) == [Tagged(text, None)]
    ensures PauseAtIndex(Concat(at, n), |Concat(at, k)|, text)
    decreases n
  {
    if n > k + 1 {
      ConcatPlacesSingle(at, k, n - 1, text);
      KeepsEarlier(Concat(at, n - 1), at(n - 1), |Concat(at, k)|);
    }
  }

  /** The main loop's output is the concatenation of what each entry
      appends. */
  lemma {:induction false} ResolveUpToConcat(info: seq<Entry>, n: nat, ctx: LineContext, run: nat, env: Env)
    requires n <= |info|
    ensures ResolveUpTo(info, n, ctx, run, env) == Concat(EntryOutput(info, ctx, run, env), n)
    decreases n
  {
    if n > 0 {
      ResolveUpToConcat(info, n - 1, ctx, run, env);
      ResolveUpToConcatStep(info, n, ctx, run, env);
    }
  }

  lemma ResolveUpToConcatStep(info: seq<Entry>, n: nat, ctx: LineContext, run: nat, env: Env)
    requires 0 < n <= |info|
    requires ResolveUpTo(info, n - 1, ctx, run, env) == Concat(EntryOutput(info, ctx, run, env), n - 1)
    ensures ResolveUpTo(info, n, ctx, run, env) == Concat(EntryOutput(info, ctx, run, env), n)
  {
    var at := EntryOutput(info, ctx, run, env);
    var prev := ResolveUpTo(info, n - 1, ctx, run, env);
    assert at(n - 1) == ResolveAt(info, n - 1, ctx, run, env);
    assert Concat(at, n) == Concat(at, n - 1) + at(n - 1);
    assert ResolveUpTo(info, n, ctx, run, env) == prev + ResolveAt(info, n - 1, ctx, run, env);
  }

  /** What entry `i` appends, as a function of `i`. */
  function EntryOutput(info: seq<Entry>, ctx: LineContext, run: nat, env: Env): nat -> seq<Tagged>
  {
    (i: nat) => if i < |info| then ResolveAt(info, i, ctx, run, env) else []
  }

  /** Each punctuation entry `k` becomes exactly the pause `(token, None)`,
      placed right after what the entries before it produced. */
  lemma PunctuationBecomesPause(info: seq<Entry>, k: nat, n: nat, ctx: LineContext, run: nat, env: Env)
    requires k < n <= |info| && info[k].kind == Punct
    ensures PauseAtIndex(ResolveUpTo(info, n, ctx, run, env), |ResolveUpTo(info, k, ctx, run, env)|, info[k].text)
  {
    var at := EntryOutput(info, ctx, run, env);
    PauseAt(info, k, ctx, run, env);
    assert at(k) == [Tagged(info[k].text, None)];
    ConcatPlacesSingle(at, k, n, info[k].text);
    ResolveUpToConcat(info, n, ctx, run, env);
    ResolveUpToConcat(info, k, ctx, run, env);
  }

  /** In a resolved line the pauses are exactly the punctuation entries of
      the scan: as many of them, each punctuation token among them. */
  lemma LinePauses(linea: string, hint: Option<Lang>, env: Env)
    ensures var info := ScanFrom(env.words(linea), 0);
            PauseCount(LineSpec(linea, hint, env)) == PunctCount(info)
            && forall k :: 0 <= k < |info| && info[k].kind == Punct ==> Tagged(info[k].text, None) in LineSpec(linea, hint, env)
  {
    var info := ScanFrom(env.words(linea), 0);
    var ctx := LineLanguage(linea, hint, env.classify);
    var run := PrefixRun(info, ctx, env.classify);
    ResolvedPauseCount(info, |info|, ctx, run, env);
    assert info[..|info|] == info;
    forall k | 0 <= k < |info| && info[k].kind == Punct
      ensures Tagged(info[k].text, None) in LineSpec(linea, hint, env)
    {
      PunctuationBecomesPause(info, k, |info|, ctx, run, env);
      var all := ResolveUpTo(info, |info|, ctx, run, env);
      assert all[|ResolveUpTo(info, k, ctx, run, env)|] in all;
    }
  }

  /** The entries inside the prefix run come out as English, one for one. */
  lemma PrefixEntriesEnglish(info: seq<Entry>, ctx: LineContext, env: Env, k: nat)
    requires k < |info| && k < PrefixRun(info, ctx, env.classify)
    ensures ResolveAt(info, k, ctx, PrefixRun(info, ctx, env.classify), env) == [Tagged(info[k].text, Some(English))]
  {
    PrefixRunShape(info, ctx, env.classify);
  }

  /** A protected phrase without Spanish marks on which the detector is
      conclusive takes the detected language: the 0.40 threshold never
      rejects, because every detection is at least 0.5. */
  lemma PhraseThresholdNeverRejects(texto: string, ctx: LineContext, env: Env)
    requires !HasMark(texto, SpanishMarks) && DetectText(texto, env.classify).lang.Some?
    ensures PhraseLanguage(texto, ctx, env) == DetectText(texto, env.classify).lang.value
    ensures DetectText(texto, env.classify).confidence >= 0.40
  {
    DetectedConfidenceAtLeastHalf(texto, env.classify);
  }

  /** `('.', None)` is appended to a non-empty line unless it already ends
      with it. */
  function Terminate(procesado: seq<Tagged>): (r: seq<Tagged>)
    ensures procesado == [] ==> r == []
    ensures procesado != [] ==> |r| > 0 && r[|r| - 1] == EndMark
    ensures procesado != [] && procesado[|procesado| - 1] == EndMark ==> r == procesado
    ensures procesado != [] && procesado[|procesado| - 1] != EndMark ==> r == procesado + [EndMark]
  {
    if procesado != [] && procesado[|procesado| - 1] != EndMark then procesado + [EndMark] else procesado
  }

  /** The lines `procesar_texto` produces for the sentences `ls`, given
      what `procesar_lineas` does to one stripped sentence: blank sentences
      are skipped, every other one yields one entry. */
  function LinesSpec(ls: seq<string>, line: string -> seq<Tagged>): seq<seq<Tagged>>
  {
    if ls == [] then []
    else
      var linea := Strip(ls[|ls| - 1]);
      LinesSpec(ls[..|ls| - 1], line) + (if linea == [] then [] else [Terminate(line(linea))])
  }

  /** `procesar_texto(texto)` as a function of its input; `None` stands for
      Python's `None`. */
  function TextSpec(texto: Option<string>, env: Env): seq<seq<Tagged>>
  {
    if texto.None? then [] else LinesSpec(env.sentences(Replace(texto.value, "\n", " ")), l => LineSpec(l, None, env))
  }

  /** The end-of-line mark `procesar_texto` adds to a processed line. */
  method TerminateLine(procesado: seq<Tagged>) returns (r: seq<Tagged>)
    ensures r == Terminate(procesado)
  {
    r := procesado;
    if procesado != [] {
      if !(procesado[|procesado| - 1].text == "." && procesado[|procesado| - 1].lang.None?) {
        r := procesado + [EndMark];
      }
    }
  }

  /** `ProcesadoDatos.procesar_texto`. */
  method ProcessText(texto: Option<string>, env: Env) returns (resultado: seq<seq<Tagged>>)
    ensures resultado == TextSpec(texto, env)
  {
    if texto.None? {
      return [];
    }
    var plano := Replace(texto.value, "\n", " ");
    var lineas := env.sentences(plano);
    resultado := [];
    ghost var line := l => LineSpec(l, None, env);
    for k := 0 to |lineas|
      invariant resultado == LinesSpec(lineas[..k], line)
    {
      LinesSpecStep(lineas, k, line);
      var linea := Strip(lineas[k]);
      if linea != [] {
        var procesado := ProcessLine(linea, None, env);
        procesado := TerminateLine(procesado);
        assert procesado == Terminate(line(linea));
        resultado := resultado + [procesado];
      }
    }
    assert lineas[..|lineas|] == lineas;
  }

  /** One more sentence adds its line, unless it is blank once stripped. */
  lemma LinesSpecStep(ls: seq<string>, k: nat, line: string -> seq<Tagged>)
    requires k < |ls|
    ensures LinesSpec(ls[..k + 1], line) ==
            LinesSpec(ls[..k], line) + (if Strip(ls[k]) == [] then [] else [Terminate(line(Strip(ls[k])))])
  {
    assert ls[..k + 1][..k] == ls[..k];
  }

  /** How many of the sentences are not blank. */
  function CountNonBlank(ls: seq<string>): nat
  {
    if ls == [] then 0 else CountNonBlank(ls[..|ls| - 1]) + (if IsBlank(ls[|ls| - 1]) then 0 else 1)
  }

  /** One line per non-blank sentence. */
  lemma {:induction false} LinesCount(ls: seq<string>, line: string -> seq<Tagged>)
    ensures |LinesSpec(ls, line)| == CountNonBlank(ls)
    decreases |ls|
  {
    if ls != [] {
      var last := ls[|ls| - 1];
      LinesCount(ls[..|ls| - 1], line);
      assert Strip(last) == [] <==> IsBlank(last) by { StripSpec(last); }
    }
  }

  /** Every line is empty or ends with the pause `('.', None)`. */
  predicate AllTerminated(lines: seq<seq<Tagged>>)
  {
    forall l :: l in lines ==> l == [] || l[|l| - 1] == EndMark
  }

  lemma TerminatedConcat(a: seq<seq<Tagged>>, b: seq<seq<Tagged>>)
    requires AllTerminated(a) && AllTerminated(b)
    ensures AllTerminated(a + b)
  {
    forall l | l in a + b ensures l == [] || l[|l| - 1] == EndMark {
      if l !in a {
        assert l in b;
      }
    }
  }

  lemma {:induction false} LinesTerminated(ls: seq<string>, line: string -> seq<Tagged>)
    ensures AllTerminated(LinesSpec(ls, line))
    decreases |ls|
  {
    if ls != [] {
      var init := ls[..|ls| - 1];
      LinesTerminated(init, line);
      var linea := Strip(ls[|ls| - 1]);
      var extra := if linea == [] then [] else [Terminate(line(linea))];
      var prev := LinesSpec(init, line);
      assert LinesSpec(ls, line) == prev + extra;
      if linea != [] {
        TerminatedSingle(line(linea));
      }
      TerminatedConcat(prev, extra);
    }
  }

  lemma TerminatedSingle(procesado: seq<Tagged>)
    ensures AllTerminated([Terminate(procesado)])
  {
  }

  /** `procesar_texto(None)` is `[]`; otherwise one line per non-blank
      sentence of the text with its newlines turned into spaces, and every
      non-empty line ends with `('.', None)`. */
  lemma TextShape(texto: Option<string>, env: Env)
    ensures texto.None? ==> TextSpec(texto, env) == []
    ensures texto.Some? ==> |TextSpec(texto, env)| == CountNonBlank(env.sentences(Replace(texto.value, "\n", " ")))
    ensures AllTerminated(TextSpec(texto, env))
  {
    if texto.Some? {
      LinesCount(env.sentences(Replace(texto.value, "\n", " ")), l => LineSpec(l, None, env));
      LinesTerminated(env.sentences(Replace(texto.value, "\n", " ")), l => LineSpec(l, None, env));
    }
  }

  /** The text handed to the sentence splitter has no newline left. */
  lemma NoNewlineReachesSplitter(texto: string)
    ensures '\n' !in Replace(texto, "\n", " ")
  {
    ReplaceCharRemovesIt(texto, '\n', " ");
  }
}
