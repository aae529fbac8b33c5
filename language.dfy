/** Language detection: the restricted two-language classifier (langid with
    its language set limited to Spanish and English), the staircase that turns
    its raw score into a confidence, and the diacritic short-circuit.

    `Procesado_datos.py` holds the original detector (`Idiomas`);
    `procesado_datos/detectar_idioma.py` holds the refactored one
    (`DetectarIdioma`, `GestorDetectorIdioma`). They differ in two constants:
    the refactored one also counts the inverted marks as Spanish evidence and
    maps an unparsable score to 0.5 rather than 0.0. */
module Language {
  import opened Base
  import opened Text

  datatype Lang = Spanish | English

  /** What `langid.classify(text)` does: return a language code and a raw
      log-probability score, or raise. */
  datatype Langid = Classified(code: string, score: real) | ClassifierError

  /** The classifier is an oracle: any total function from text to outcome. */
  type Classifier = string -> Langid

  /** The argument of `normalizacion_probabilidad`: `float(x)` either parses
      it or raises. */
  datatype ScoreArg = Score(value: real) | Unparsable

  /** The six confidence levels of the staircase. */
  predicate IsLevel(c: real)
  {
    c == 0.50 || c == 0.60 || c == 0.70 || c == 0.80 || c == 0.90 || c == 0.99
  }

  /** The staircase shared by both normalisations. */
  function Staircase(p: real): (c: real)
    ensures IsLevel(c)
  {
    if p >= 3.0 then 0.99
    else if p >= 1.0 then 0.90
    else if p > 0.0 then 0.80
    else if p > -1.5 then 0.70
    else if p > -3.0 then 0.60
    else 0.50
  }

  /** `Idiomas.normalizacion_probabilidad`: an unparsable score gives 0.0. */
  function NormalizeScore(a: ScoreArg): (c: real)
    ensures a.Unparsable? ==> c == 0.0
    ensures a.Score? ==> IsLevel(c)
  {
    match a
    case Unparsable => 0.0
    case Score(p) => Staircase(p)
  }

  /** `DetectarIdioma.normalizacion_probabilidad`: an unparsable score gives 0.5. */
  function NormalizeScoreModular(a: ScoreArg): (c: real)
    ensures a.Unparsable? ==> c == 0.5
    ensures IsLevel(c)
  {
    match a
    case Unparsable => 0.5
    case Score(p) => Staircase(p)
  }

  /** The staircase never decreases as the score grows. */
  lemma StaircaseMonotone(p: real, q: real)
    requires p <= q
    ensures Staircase(p) <= Staircase(q)
  {
  }

  /** The staircase's cut points: each level is reached exactly on its
      interval of raw scores. */
  lemma StaircaseCutPoints(p: real)
    ensures Staircase(p) == 0.99 <==> p >= 3.0
    ensures Staircase(p) == 0.90 <==> 1.0 <= p < 3.0
    ensures Staircase(p) == 0.80 <==> 0.0 < p < 1.0
    ensures Staircase(p) == 0.70 <==> -1.5 < p <= 0.0
    ensures Staircase(p) == 0.60 <==> -3.0 < p <= -1.5
    ensures Staircase(p) == 0.50 <==> p <= -3.0
  {
  }

  /** A confidence of at least 0.95 is only ever the top step, so it holds
      exactly when the raw score is at least 3.0. */
  lemma HighConfidenceIsTopStep(p: real)
    ensures Staircase(p) >= 0.95 <==> p >= 3.0
    ensures Staircase(p) >= 0.90 <==> p >= 1.0
    ensures Staircase(p) >= 0.50
  {
  }

  /** `{'es': 'español', 'en': 'ingles'}`. */
  function CodeToLang(code: string): (l: Option<Lang>)
    ensures l == Some(Spanish) <==> code == "es"
    ensures l == Some(English) <==> code == "en"
  {
    if code == "es" then Some(Spanish) else if code == "en" then Some(English) else None
  }

  /** The Spanish diacritics the original detector looks for. */
  const SpanishMarks: set<char> := {'ñ', 'á', 'é', 'í', 'ó', 'ú', 'ü', 'Á', 'É', 'Í', 'Ó', 'Ú', 'Ü'}

  /** The refactored detector also counts the inverted question and
      exclamation marks. */
  const SpanishMarksModular: set<char> := SpanishMarks + {'¿', '¡'}

  predicate HasMark(s: string, marks: set<char>)
  {
    exists i :: 0 <= i < |s| && s[i] in marks
  }

  /** `(language or None, confidence)`. */
  datatype Detection = Detection(lang: Option<Lang>, confidence: real)

  /** `Idiomas.detectar_idioma_texto`. */
  function DetectText(texto: string, classify: Classifier): (d: Detection)
    ensures IsBlank(texto) ==> d == Detection(None, 0.0)
    ensures !IsBlank(texto) && HasMark(texto, SpanishMarks) ==> d == Detection(Some(Spanish), 1.0)
    ensures !IsBlank(texto) && !HasMark(texto, SpanishMarks) ==>
              (d.lang.Some? <==> classify(texto).Classified? && CodeToLang(classify(texto).code).Some?)
    ensures !IsBlank(texto) && !HasMark(texto, SpanishMarks) && d.lang.Some? ==>
              d.lang == CodeToLang(classify(texto).code) && d.confidence == Staircase(classify(texto).score)
    ensures d.lang.None? ==> d.confidence == 0.0
  {
    if IsBlank(texto) then Detection(None, 0.0)
    else if HasMark(texto, SpanishMarks) then Detection(Some(Spanish), 1.0)
    else
      match classify(texto)
      case ClassifierError => Detection(None, 0.0)
      case Classified(code, p) =>
        if CodeToLang(code).Some? then Detection(CodeToLang(code), NormalizeScore(Score(p)))
        else Detection(None, 0.0)
  }

  /** `DetectarIdioma.detectar_idioma_langid`: the classifier alone. */
  function DetectLangid(texto: string, classify: Classifier): (d: Detection)
    ensures d.lang.None? <==> !(classify(texto).Classified? && CodeToLang(classify(texto).code).Some?)
    ensures d.lang.None? ==> d.confidence == 0.0
    ensures d.lang.Some? ==>
              d.lang == CodeToLang(classify(texto).code) && d.confidence == Staircase(classify(texto).score)
  {
    match classify(texto)
    case ClassifierError => Detection(None, 0.0)
    case Classified(code, p) =>
      if CodeToLang(code).Some? then Detection(CodeToLang(code), NormalizeScoreModular(Score(p)))
      else Detection(None, 0.0)
  }

  /** `DetectarIdioma._contiene_diacriticos_espanol`. */
  predicate ContainsSpanishDiacritics(texto: string)
  {
    HasMark(texto, SpanishMarksModular)
  }

  /** `DetectarIdioma.detectar_idioma`. */
  function Detect(texto: string, classify: Classifier): (d: Detection)
    ensures IsBlank(texto) ==> d == Detection(None, 0.0)
    ensures !IsBlank(texto) && ContainsSpanishDiacritics(texto) ==> d == Detection(Some(Spanish), 1.0)
    ensures !IsBlank(texto) && !ContainsSpanishDiacritics(texto) ==> d == DetectLangid(texto, classify)
    ensures d.lang.None? ==> d.confidence == 0.0
  {
    if IsBlank(texto) then Detection(None, 0.0)
    else if ContainsSpanishDiacritics(texto) then Detection(Some(Spanish), 1.0)
    else DetectLangid(texto, classify)
  }

  /** A text carrying a Spanish mark is Spanish whatever the classifier would
      have said: two classifiers give the same detection. */
  lemma DiacriticShortCircuit(texto: string, c1: Classifier, c2: Classifier)
    requires !IsBlank(texto) && ContainsSpanishDiacritics(texto)
    ensures Detect(texto, c1) == Detect(texto, c2) == Detection(Some(Spanish), 1.0)
  {
  }

  /** `GestorDetectorIdioma.es_espanol`. */
  predicate IsSpanish(texto: string, umbral: real, classify: Classifier)
  {
    var d := Detect(texto, classify);
    d.lang == Some(Spanish) && d.confidence >= umbral
  }

  /** `GestorDetectorIdioma.es_ingles`. */
  predicate IsEnglish(texto: string, umbral: real, classify: Classifier)
  {
    var d := Detect(texto, classify);
    d.lang == Some(English) && d.confidence >= umbral
  }

  /** The two threshold predicates never both hold, and with a threshold of
      at most 0.5 one of them holds exactly when a language was detected. */
  lemma ThresholdPredicates(texto: string, umbral: real, classify: Classifier)
    ensures !(IsSpanish(texto, umbral, classify) && IsEnglish(texto, umbral, classify))
    ensures umbral <= 0.5 ==>
      (IsSpanish(texto, umbral, classify) || IsEnglish(texto, umbral, classify)
       <==> Detect(texto, classify).lang.Some?)
  {
    var d := Detect(texto, classify);
    if d.lang.Some? && !IsBlank(texto) && !ContainsSpanishDiacritics(texto) {
      assert d.confidence == Staircase(classify(texto).score);
    }
  }

  /** Any detection either detector makes carries a confidence of at least
      0.5. */
  lemma DetectedConfidenceAtLeastHalf(texto: string, classify: Classifier)
    ensures DetectText(texto, classify).lang.Some? ==> DetectText(texto, classify).confidence >= 0.5
    ensures Detect(texto, classify).lang.Some? ==> Detect(texto, classify).confidence >= 0.5
  {
  }

  /** The two detectors differ only on the inverted marks: on a text
      without `¿` or `¡` they give the same detection. */
  lemma DetectorsAgree(texto: string, classify: Classifier)
    requires '¿' !in texto && '¡' !in texto
    ensures DetectText(texto, classify) == Detect(texto, classify)
  {
    if HasMark(texto, SpanishMarksModular) {
      var i :| 0 <= i < |texto| && texto[i] in SpanishMarksModular;
      assert texto[i] in texto;
      assert HasMark(texto, SpanishMarks);
    }
  }
}
