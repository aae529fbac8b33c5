# Conversor Texto a Voz: the text pipeline and audio batching, in Dafny

This project models the deterministic core of *Conversor-Texto-a-Voz*, a
Python program that reads text, tags each token as Spanish (`español`),
English (`ingles`) or a pause (`None`), and reads it aloud with gTTS or
pyttsx3. Everything statistical or external becomes a parameter of the model:

- `langid.classify` is a `Classifier` that returns a code and a real score, or
  raises.
- The NLTK sentence and word tokenizers, and the Spanish and English stopword
  sets, are fields of an `Env`.
- The speech engines are functions that return a clip, nothing, or an
  exception.
- `os.path.isfile`, `validators.url` and `validators.domain` are predicates.

Python values the input helpers inspect by type (`isinstance`, truthiness) are
a `PyValue` datatype. Token dictionaries of the refactored stages are maps from
field name to `PyValue`.

The modules follow the program's structure:

- `Base`, `Text`: `Option`, the outcome of a call that may raise, Python
  values, and the string builtins the code uses (`strip`, `lower`, `join`,
  `replace`, `startswith`, `endswith`).
- `Language`: the score staircase `normalizacion_probabilidad` in both
  versions, the two text detectors with their diacritic short-circuit, and
  the threshold predicates `es_espanol` and `es_ingles`.
- `SpanScanner`: `limpiar_palabras`, the index-driven scanner that sorts a
  line's tokens into words, punctuation, protected words and protected
  phrases. `procesado_datos/limpeza_texto.py` is a verbatim copy of it
  (lines shifted by -357) and is modelled by the same members.
- `LineResolver`: `procesar_lineas`, `procesar_palabras` and `procesar_texto`.
  These cover the line language with its fallback, the forced-English prefix
  run, the rule cascades for protected words and phrases, and the
  end-of-line pause.
- `TokenCleaning`, `TextStages`, `ProtectedGrouping`: the refactored stage
  classes. They are `limpiar_token`/`limpiar`, `ObtenerTokens`,
  `MarcarSilencios`, and `AgruparProtegidos`, which groups with a stack.
- `TokenExpansion`: `ExpansionToken.expandir` (and `expand_for_gtts`,
  `expand_for_pyttsx3`), plus the older `expand_token` inside
  `generaraudio_gtts`.
- `AudioBatching`: the loop of `convertir_texto_voz`. It groups words into
  same-language blocks, turns pause tokens into silences, and merges
  adjacent silences. It also covers the gTTS-then-pyttsx3 fallback of
  `generaraudio` and the `.mp3` suffix. `convertor_audio/conversor.py` holds
  the same loop (lines shifted by -17) and is modelled by the same members.
- `FragmentGenerator`: `Generador.generar` of `convertor_audio/generador.py`,
  and the language mapping and text cleanup of `GTTS._generar_fragmento_audio`.
- `InputKind`: prefix building and the input-type decision, in both
  `Extraccion_datos.py` and `extraccion_validacion/tipo_datos.py`. It also
  covers text and URL validation with domain extraction, `textoplano`, and
  the extension check of `ExtraccionDatos.archivo`.

Loops in the source are `method`s with loop invariants. Each method is proved
equal to a specification function, and the properties are lemmas about that
function: each such function is a left fold of a one-step function over the
input. The copies' behaviour agrees with the modelled file line for line, so
each is cited once.

Some behaviour the source has, stated as lemmas:

- `expandir` and `expand_token` disagree on a `+` left after `++`
  (`ExpandersDiffer`).
- The URL scheme fix is not idempotent when `http` is not an allowed scheme
  (`FixSchemeNotIdempotent`).
- `tipo_datos.py` ignores the schemes it is passed (`DetermineKindDefault`).
- A string of schemes is split into one prefix per character
  (`StringSchemesSplit`).
- In `generar`, a pause mark without a time is voiced in the language of the
  word after it (`UntimedMarkJoinsNextBlock`).
- In `limpiar_palabras`, the split of trailing punctuation can never be
  reached (`TrailingPunctSplitUnreachable`).

## Model

| member | source | states |
|---|---|---|
| Language.Staircase | Procesado_datos.py:78-88 | the confidence is always one of the six levels 0.50, 0.60, 0.70, 0.80, 0.90, 0.99 |
| Language.NormalizeScore | Procesado_datos.py:73-88 | an unparsable score gives 0.0; any parsed score gives one of the six levels |
| Language.NormalizeScoreModular | procesado_datos/detectar_idioma.py:80-98 | the same staircase, but an unparsable score gives 0.5 |
| Language.StaircaseMonotone | Procesado_datos.py:78-88 | the staircase never decreases as the raw score grows |
| Language.StaircaseCutPoints | Procesado_datos.py:78-88 | each level holds exactly on its interval: >=3.0, [1.0,3.0), (0,1.0), (-1.5,0], (-3.0,-1.5], <=-3.0 |
| Language.HighConfidenceIsTopStep | Procesado_datos.py:78-88 | a confidence >=0.95 holds iff the raw score is >=3.0, >=0.90 iff >=1.0, and every confidence is >=0.5 |
| Language.CodeToLang | procesado_datos/detectar_idioma.py:12 | `es` maps to Spanish and `en` to English, and no other code maps to either |
| Language.DetectText | Procesado_datos.py:92-112 | blank text gives (None, 0.0); a Spanish diacritic gives (español, 1.0); otherwise a language exactly when the classifier returns es or en, with the staircase confidence; no language always has confidence 0.0 |
| Language.DetectLangid | procesado_datos/detectar_idioma.py:38-49 | a code outside {es, en} or an exception gives (None, 0.0); otherwise the mapped language with the normalised score |
| Language.Detect | procesado_datos/detectar_idioma.py:51-63 | blank gives (None, 0.0); a diacritic (ñáéíóúüÁÉÍÓÚÜ¿¡) gives (español, 1.0); otherwise the classifier's verdict |
| Language.DiacriticShortCircuit | procesado_datos/detectar_idioma.py:58-61 | with a diacritic, the detection is (español, 1.0) whatever the classifier |
| Language.ThresholdPredicates | procesado_datos/detectar_idioma.py:121-143 | `es_espanol` and `es_ingles` never both hold; with a threshold <=0.5, one holds iff a language was detected |
| Language.DetectedConfidenceAtLeastHalf | procesado_datos/detectar_idioma.py:38-63 | whenever either detector names a language, its confidence is >=0.5 |
| Language.DetectorsAgree | Procesado_datos.py:92-112 | on a text without ¿ or ¡ the original and refactored detectors give the same result |
| SpanScanner.StripTrailingDelims | Procesado_datos.py:425-430 | never lengthens the token; a token that does not end in a newline, or ends in a delimiter, loses exactly its trailing run of quote/bracket characters |
| SpanScanner.StripTrailingDelimsSpec | Procesado_datos.py:425-430 | as `$` matches before a final newline: the result keeps a prefix of the token (without that newline), everything cut is a delimiter, the kept part does not end in one, and a final newline stays |
| SpanScanner.StripDelims | Procesado_datos.py:479 | the cleanup never lengthens a token |
| SpanScanner.StripDelimsSpec | Procesado_datos.py:479 | the leading run of delimiters is cut (everything before the cut is a delimiter, the character at it is not); of the rest a prefix is kept, everything cut after it is a delimiter, it does not end in one, and a final newline stays |
| SpanScanner.StripDelimsKeepsClean | Procesado_datos.py:479 | a token that neither starts nor ends with a delimiter (nor ends in a newline) is unchanged by the cleanup |
| SpanScanner.Closer | Procesado_datos.py:396-402 | a span opened by `(` closes with `)`, one opened by a quote closes with that quote |
| SpanScanner.FirstSegment | Procesado_datos.py:404-415 | the opening token contributes at most one inner word, never starting with the opening delimiter; its content is given by FirstSegmentSpec |
| SpanScanner.FirstSegmentSpec | Procesado_datos.py:404-415 | a token ending with its closer contributes nothing; otherwise it contributes the token with its leading run of opening delimiters cut off (a suffix preceded only by opening delimiters, starting with another character), and nothing exactly when the token is all opening delimiters |
| SpanScanner.SpanEnd | Procesado_datos.py:417-436 | finds the first token at or after j ending with the closer, or reports that none does |
| SpanScanner.ValidWords | Procesado_datos.py:446-447 | the kept inner words all fully match the word pattern, and there are no more of them than inner tokens; ValidWordsAppend and ValidWordsMembers give the content |
| SpanScanner.ValidWordsAppend | Procesado_datos.py:446-447 | the valid words of a concatenation are those of each part, in order: each inner word is cleaned and kept or dropped on its own |
| SpanScanner.ValidWordsMembers | Procesado_datos.py:446-447 | a word is kept exactly when it fully matches the word pattern and is the cleanup of one of the inner words |
| SpanScanner.SpanRule | Procesado_datos.py:439-469 | a span fires only when its closer exists and one, or more than two, inner words are valid; it emits exactly three entries, opening punctuation first and closing punctuation last, with the valid words joined by spaces as 'palabras_protegidas' when more than two, or the single valid word as 'palabra_protegida', in between; it resumes after the closer |
| SpanScanner.NormalRule | Procesado_datos.py:473-491 | a punctuation-only token is emitted unchanged as punctuation; any other token is emitted, cleaned, as a word exactly when its cleaned form matches the word pattern |
| SpanScanner.Step | Procesado_datos.py:380-491 | every pass of the outer loop strictly advances the index and never past the end; a wrapped token whose inside is a word gives that inside as one 'palabra_protegida'; otherwise a firing span rule gives its match; otherwise the normal rules apply to the token alone |
| SpanScanner.FindCloser | Procesado_datos.py:417-436 | the inner loop finds the closer iff one exists, at the first position, and collects the inner words |
| SpanScanner.OpeningSegment | Procesado_datos.py:404-415 | before the closer search, the inner words hold exactly the opening token's own segment |
| SpanScanner.ScanSpan | Procesado_datos.py:393-469 | the span branch of one pass yields a match exactly when the span rule fires, and then the same entries and resume index |
| SpanScanner.ScanPlain | Procesado_datos.py:473-491 | a token outside any span is emitted exactly by the normal rules |
| SpanScanner.ScanToken | Procesado_datos.py:380-491 | one pass of the outer loop emits and advances exactly as the scanner's step rule |
| SpanScanner.CleanWords | Procesado_datos.py:366-493 | a non-list input gives []; otherwise the loop produces the whole scan |
| SpanScanner.JoinedWordsArePhrase | Procesado_datos.py:452-456 | a space-joined list of words is a phrase of word characters and single spaces |
| SpanScanner.StepWellFormed | Procesado_datos.py:380-491 | each entry one pass emits fits its tag |
| SpanScanner.ScanWellFormed | Procesado_datos.py:366-493 | every word and protected word fully matches the word pattern, every punctuation entry is punctuation only, every phrase is words joined by spaces |
| SpanScanner.PlainWordStep | Procesado_datos.py:479-491 | one plain word becomes one `palabra` with its text unchanged |
| SpanScanner.PlainWordsPassThrough | Procesado_datos.py:366-493 | a line of plain words comes out one for one, in order, as `palabra` entries |
| SpanScanner.TrailingPunctSplitUnreachable | Procesado_datos.py:485-491 | no token that matches the word pattern can be split into word and trailing `.,;:` |
| SpanScanner.ClausePunctEndingDropped | Procesado_datos.py:479-491 | a token such as `hola,` is dropped, not split |
| SpanScanner.SpanFallThrough | Procesado_datos.py:438-491 | with no closer, or 0 or 2 valid inner words, only the opening token is handled, by the normal rules, and scanning resumes right after it |
| SpanScanner.SpanFires | Procesado_datos.py:439-469 | a span fires iff its closer is found and 1 or more than 2 inner words are valid, and it consumes every token up to the closer |
| LineResolver.BucketOf | Procesado_datos.py:256 | `high` iff the line probability is >=0.9, `low` iff <0.6 |
| LineResolver.ClassifyWord | Procesado_datos.py:320-361 | empty input gives None; the word comes back unchanged; a diacritic gives (español, 1.0) |
| LineResolver.UnprotectedWordAcceptance | Procesado_datos.py:334-361 | an unprotected word without diacritics is accepted iff the classifier names es/en with raw score >=3.0, at 0.99 and in the classifier's language |
| LineResolver.ParenthesizedWordVerdict | Procesado_datos.py:339-352 | a protected word is never rejected: the classifier's language at >=3.0, English on a high line at >=1.0, else the hint (español by default) at 0.99 |
| LineResolver.LineLanguage | Procesado_datos.py:165-171 | the detected language and confidence, or the hint (español by default) at 0.0 when detection is inconclusive |
| LineResolver.Run | Procesado_datos.py:190-208 | the prefix scan counts only leading qualifying `palabra` entries, stops at the first that is not, and counts at most 4 |
| LineResolver.PrefixRunShape | Procesado_datos.py:185-212 | the prefix run is 0, 3 or 4; a non-zero run needs an English or <0.6 line and covers only qualifying plain words |
| LineResolver.QualifiesIffTopScore | Procesado_datos.py:199-201 | a token qualifies for the prefix iff the classifier says `en` with raw score >=3.0 |
| LineResolver.ResolveProtectedWord | Procesado_datos.py:229-279 | the cascade is diacritic, then Spanish stopword, then English stopword (all keep the token as written), then the classifier on the lowercased word; on that path the word is emitted lowercased, a Spanish suffix always gives español, and otherwise the word takes the classifier's language, or the line language when the classifier gives None |
| LineResolver.PhraseLanguage | Procesado_datos.py:285-300 | a diacritic gives español; else a conclusive detection decides; else a Spanish stopword gives español, else an English stopword gives ingles, else the line language |
| LineResolver.PhraseTokens | Procesado_datos.py:304-308 | every emitted inner token is non-empty and carries the phrase's one language |
| LineResolver.CleanedWords | Procesado_datos.py:304-308 | the reference reading of the phrase loop: the cleaned inner tokens, none empty, no more of them than inner tokens |
| LineResolver.PhraseTokensAreCleanedWords | Procesado_datos.py:304-308 | the phrase emits exactly the cleaned non-empty inner tokens, in order, each tagged with the phrase language |
| LineResolver.PhraseTokensKeepAll | Procesado_datos.py:304-308 | when no inner token cleans to nothing, one tagged token per inner token, in order |
| LineResolver.CountPrefix | Procesado_datos.py:181-212 | the prefix loop computes exactly the prefix run |
| LineResolver.ResolveEntry | Procesado_datos.py:216-312 | one pass of the main loop appends exactly what the rules give for that entry |
| LineResolver.AppendEntry | Procesado_datos.py:216-312 | appending one entry's tokens extends the resolved prefix by exactly that entry |
| LineResolver.ResolveAll | Procesado_datos.py:214-312 | the main loop over the entries builds exactly the resolution of the whole line |
| LineResolver.ProcessLine | Procesado_datos.py:158-314 | `procesar_lineas` returns exactly the resolved line |
| LineResolver.ResolvedTagsShape | Procesado_datos.py:216-312 | an entry without a language is a punctuation-only token, and every entry with a language has text |
| LineResolver.LineTagsShape | Procesado_datos.py:158-314 | in a resolved line a `None` language only sits on a punctuation-only token, and every entry with a language has text |
| LineResolver.ResolvedPauseCount | Procesado_datos.py:216-312 | a resolved prefix has exactly one pause per punctuation entry |
| LineResolver.PunctuationBecomesPause | Procesado_datos.py:219-221 | each punctuation entry becomes the pause `(token, None)`, right after what the entries before it produced, and stays there |
| LineResolver.LinePauses | Procesado_datos.py:158-314 | the pauses of a resolved line are exactly its punctuation entries: as many, each one present as `(token, None)` |
| LineResolver.PrefixEntriesEnglish | Procesado_datos.py:224-226 | entries inside the prefix run come out as ingles, one for one |
| LineResolver.PhraseThresholdNeverRejects | Procesado_datos.py:290-292 | the 0.40 phrase threshold never rejects a conclusive detection, since every detection is >=0.5 |
| LineResolver.Terminate | Procesado_datos.py:144-148 | an empty line stays empty; otherwise the line ends with ('.', None), appended only when not already last |
| LineResolver.TerminateLine | Procesado_datos.py:143-147 | the end-of-line marker step gives exactly the terminated line |
| LineResolver.ProcessText | Procesado_datos.py:120-153 | `procesar_texto` returns exactly the per-sentence lines |
| LineResolver.LinesCount | Procesado_datos.py:133-151 | one line per non-blank sentence |
| LineResolver.LinesTerminated | Procesado_datos.py:144-151 | every line is empty or ends with ('.', None) |
| LineResolver.TextShape | Procesado_datos.py:120-153 | None gives []; otherwise one line per non-blank sentence of the newline-free text, each empty or ending with ('.', None) |
| LineResolver.NoNewlineReachesSplitter | Procesado_datos.py:126 | the text given to the sentence splitter has no newline |
| TokenCleaning.CleanToken | procesado_datos/limpieza_texto.py:34-44 | `es_puntuacion` iff the raw token matches `[.,:;!?-]+`; `es_palabra` iff it matches the word pattern and is not punctuation; never both; the token is empty iff the input is blank |
| TokenCleaning.CleanTokenText | procesado_datos/limpieza_texto.py:35 | the `token` field is the input from its first to its last non-whitespace character, lowercased; everything cut on either side is whitespace |
| TokenCleaning.HyphenIsPunctuation | procesado_datos/limpieza_texto.py:36-39 | `-` is punctuation, not a word |
| TokenCleaning.LeadingSpaceIsNeither | procesado_datos/limpieza_texto.py:35-39 | ` hola` is neither a word nor punctuation, since the flags look at the raw token |
| TokenCleaning.TrailingNewlineWord | procesado_datos/limpieza_texto.py:36-38 | a word followed by one newline still counts as a word |
| TokenCleaning.Limpiar | procesado_datos/limpieza_texto.py:17-30 | the number of segments, each `linea`, and the count and order of tokens are kept, each token cleaned on its own |
| TextStages.ObtainTokens | procesado_datos/procesar_texto.py:22-32 | a non-string or blank input gives []; otherwise one record per sentence of the newline-free text, in order, with its words |
| TextStages.SilenceTable | procesado_datos/procesar_texto.py:35-39 | a missing or empty table gives the default table, any other table is used as given |
| TextStages.MarkToken | procesado_datos/procesar_texto.py:47-53 | only `silencio` and `tiempo` are added, every other field is kept; `silencio` holds iff the token is a key and `es_puntuacion` (default True) holds; `tiempo` is the table value then, else 0 |
| TextStages.MarkLine | procesado_datos/procesar_texto.py:46-54 | every token of a segment is marked, in order |
| TextStages.MarkSilences | procesado_datos/procesar_texto.py:41-56 | the number of segments, each `linea`, and the count and order of tokens are kept, each token marked |
| TextStages.EllipsisPause | procesado_datos/procesar_texto.py:37-39 | `...` pauses 700 ms; `..` is not a key and does not pause |
| TextStages.AsFields | procesado_datos/limpieza_texto.py:40-44 | the record `limpiar_token` returns carries its token and its punctuation flag |
| TextStages.StrippedPunctuation | procesado_datos/limpieza_texto.py:35-37 | stripping a token that matches the punctuation pattern leaves punctuation characters only |
| TextStages.LowerKeepsPunctuation | procesado_datos/limpieza_texto.py:35 | lowercasing leaves punctuation unchanged |
| TextStages.CleanedPunctuationChars | procesado_datos/limpieza_texto.py:34-44 | a cleaned token flagged as punctuation is made of punctuation characters only |
| TextStages.PunctuationDefaultKey | procesado_datos/procesar_texto.py:37-39 | a default key starting with a punctuation character is one of `. ! ? ; : ... ,` |
| TextStages.PunctuationKeysAreDefault | procesado_datos/procesar_texto.py:37-39 | each of `. ! ? ; : ... ,` is a default key made of punctuation characters only |
| TextStages.OnlyPunctuationKeysPause | procesado_datos/procesar_texto.py:46-54 | after `limpiar_token`, only those keys can pause: brackets, quotes and newlines never do |
| ProtectedGrouping.CloserOf | procesado_datos/procesar_texto.py:74 | each opener's closer; a quote closes with itself |
| ProtectedGrouping.GroupTokens | procesado_datos/procesar_texto.py:62-100 | the loop returns exactly the grouping in the reading it is given: as written, or with the quote correction described under Findings |
| ProtectedGrouping.GroupLines | procesado_datos/procesar_texto.py:102-110 | every segment keeps its fields and gains its grouped tokens in the given reading, one for one |
| ProtectedGrouping.StepLabels | procesado_datos/procesar_texto.py:71-95 | one token moves the open frames' expected closers as the reference does, and adds exactly its contribution to the tree |
| ProtectedGrouping.FeedMatchesReference | procesado_datos/procesar_texto.py:69-95 | after any prefix, the open frames expect exactly the reference's closers and the tree holds exactly the reference's labels |
| ProtectedGrouping.FlushLabels | procesado_datos/procesar_texto.py:96-99 | popping the frames still open at the end loses and adds nothing |
| ProtectedGrouping.GroupedContents | procesado_datos/procesar_texto.py:62-100 | in both readings, every token that is neither an opener nor a matching closer appears exactly once, unprotected; each opener gives one group with its delimiters; nothing else |
| ProtectedGrouping.ExpectedLeaves | procesado_datos/procesar_texto.py:84-95 | every leaf of the reference is an input record marked `protegido: False` whose token is not an opener |
| ProtectedGrouping.GroupedLeaves | procesado_datos/procesar_texto.py:62-100 | every unprotected record in the tree is an input record with `protegido: False`, and no opener is ever emitted as a token |
| ProtectedGrouping.QuoteFrameStays | procesado_datos/procesar_texto.py:71-75 | as written, once a quote frame is open no later token closes it |
| ProtectedGrouping.QuoteNeverCloses | procesado_datos/procesar_texto.py:71-99 | as written, `"` word `"` gives an empty quote group followed by the group holding the word |
| ProtectedGrouping.QuotedRunFeeds | procesado_datos/procesar_texto.py:71-95 | as intended, after an opening quote and ordinary tokens, the quote's frame is open and holds them |
| ProtectedGrouping.QuotedRunCloses | procesado_datos/procesar_texto.py:71-83 | as intended, ordinary tokens between two equal quotes become exactly one protected group delimited by that quote |
| TokenExpansion.Expand | convertor_audio/expandir_tokens.py:28-44 | a token with neither `+` nor `#` is unchanged; with a `++`, the text before the leftmost `++` is kept, that pair becomes ` plus plus` and the rule goes on after it; otherwise every `+` becomes ` plus`, or, with no `+`, every `#` becomes ` sharp`, every other character kept in order |
| TokenExpansion.FirstPair | convertor_audio/expandir_tokens.py:34-35 | the index of the leftmost `++` |
| TokenExpansion.ReplaceAtFirstPair | convertor_audio/expandir_tokens.py:34-35 | replacing `++` keeps the text before the leftmost `++`, spells that pair, and continues after it |
| Text.ReplaceCharSpells | convertor_audio/expandir_tokens.py:36-39 | replacing one character equals the independent reference `SpellChar`: each occurrence becomes the replacement, every other character is kept in order |
| TokenExpansion.ExpandRules | convertor_audio/expandir_tokens.py:34-41 | the `++` rule leaves no `++`, the `+` rule leaves no `+`, the `#` rule leaves no `#`, and a `#` next to a `+` is kept |
| TokenExpansion.ReplacePairLeavesNoPair | convertor_audio/expandir_tokens.py:34-35 | replacing `++` leaves no `++` |
| TokenExpansion.ExpandToken | Convetir_Texto_Audio.py:188-195 | a token with neither `+` nor `#` is unchanged; with a `+`, every `+` left after the `++` rule becomes ` plus`, other characters kept in order; with no `+`, every `#` becomes ` sharp`, other characters kept in order |
| TokenExpansion.ExpandTokenRules | Convetir_Texto_Audio.py:188-195 | `expand_token` removes every `+`, and every `#` when there was no `+` |
| TokenExpansion.ExpandersAgree | convertor_audio/expandir_tokens.py:28-59 | `expandir` (and so `expand_for_gtts`/`expand_for_pyttsx3`) equals `expand_token` on every token without `++` |
| TokenExpansion.ExpandersDiffer | convertor_audio/expandir_tokens.py:34-35 | on `C+++` `expandir` keeps the last `+` while `expand_token` spells it out |
| TokenExpansion.SpokenText | Convetir_Texto_Audio.py:198 | no `+` reaches the gTTS engine |
| AudioBatching.Generate | Convetir_Texto_Audio.py:255-286 | gTTS first, its clip with motor GTTS when it gives one; otherwise pyttsx3's clip with motor Pyttsx3 when pyttsx3 gives one; None iff both fail; the unit records the block and language it was made from |
| AudioBatching.LanguageCode | Convetir_Texto_Audio.py:199 | only español and ingles have a gTTS code, es and en |
| AudioBatching.GttsAudio | Convetir_Texto_Audio.py:183-223 | never raises; an unsupported language gives None; otherwise audio iff synthesis of the expanded words succeeds, and then it is synthesis's clip |
| AudioBatching.UnsupportedLanguageFallsBack | Convetir_Texto_Audio.py:255-286 | a block in another language is spoken by pyttsx3: the unit holds pyttsx3's clip with motor Pyttsx3, and the block is lost exactly when pyttsx3 fails |
| AudioBatching.MaxPause | Convetir_Texto_Audio.py:84-88 | the pause is at least each character's table value, equal to one of them or 0, and always a table length or 0 |
| AudioBatching.PauseDuration | Convetir_Texto_Audio.py:85-88 | the max loop computes exactly that pause |
| AudioBatching.AddSilence | Convetir_Texto_Audio.py:90-110 | a silence already last is replaced by one of the longer duration; otherwise the silence is appended; the result ends with a silence |
| AudioBatching.EnsureMp3 | Convetir_Texto_Audio.py:155-156 | the name ends in `.mp3` case-insensitively, and the suffix is appended only when missing |
| AudioBatching.EnsureMp3Idempotent | Convetir_Texto_Audio.py:155-156 | fixing the name twice is fixing it once |
| AudioBatching.ProcessToken | Convetir_Texto_Audio.py:63-138 | one pass of the loop updates the units, block and language exactly as the one-step rule |
| AudioBatching.ConvertTextToSpeech | Convetir_Texto_Audio.py:43-156 | input that is not a list of 2-tuples gives None; otherwise the loop plus final flush, and the `.mp3` name |
| AudioBatching.AddSilenceKeeps | Convetir_Texto_Audio.py:90-110 | adding a silence keeps silences apart and every unit well formed |
| AudioBatching.FlushBlockKeeps | Convetir_Texto_Audio.py:70-81 | flushing a block keeps silences apart and every unit well formed |
| AudioBatching.StepKeeps | Convetir_Texto_Audio.py:63-138 | one pass keeps silences apart and every unit well formed |
| AudioBatching.FeedKeeps | Convetir_Texto_Audio.py:63-138 | the loop keeps silences apart and every unit well formed |
| AudioBatching.ConvertWellFormed | Convetir_Texto_Audio.py:63-152 | whatever the engines do: no two silences are adjacent, every silence is a table length, every speech unit has words |
| AudioBatching.SpokenFlush | Convetir_Texto_Audio.py:144-152 | with gTTS always speaking, flushing a block voices exactly its words in the block language |
| AudioBatching.FeedSpeaks | Convetir_Texto_Audio.py:63-138 | the voiced words plus the pending block are exactly the language-tagged words so far, each with its own language |
| AudioBatching.ConvertSpeaksWords | Convetir_Texto_Audio.py:63-152 | with gTTS always speaking, the blocks concatenated are exactly the language-tagged words, in input order, each in a unit of its own language |
| AudioBatching.FlushBlockSurvives | Convetir_Texto_Audio.py:70-81 | whatever the engines do, a flush adds a unit exactly for the block a never-failing engine would voice, and only when generation gives a unit |
| AudioBatching.StepTracks | Convetir_Texto_Audio.py:63-138 | one pass with any engines keeps the same block and language as with a never-failing engine, and its units stay that run's blocks that the engines voice |
| AudioBatching.FeedTracks | Convetir_Texto_Audio.py:63-138 | the loop with any engines keeps the block and language of the never-failing run, and its speech units are that run's blocks that the engines voice, in order |
| AudioBatching.ConvertKeepsBlocks | Convetir_Texto_Audio.py:63-152 | whatever the engines do, the speech units are, in order, the blocks handed to the engines for which generation gives a unit |
| AudioBatching.SpokenBlocks | Convetir_Texto_Audio.py:63-152 | the spoken words are the units' blocks concatenated, each word with its block's language |
| AudioBatching.ConvertSpeaksSurvivingBlocks | Convetir_Texto_Audio.py:61-152 | whatever the engines do, the blocks handed to the engines together are exactly the language-tagged words in order, and what is spoken is those blocks concatenated after dropping each block whose generation fails: a contiguous slice per unit, in order, and a subsequence of the words |
| FragmentGenerator.NatDigits | convertor_audio/generador.py:44 | `str(n)` for n >= 0 is a non-empty digit string without a leading zero |
| FragmentGenerator.DigitsRoundTrip | convertor_audio/generador.py:44 | reading the digits back gives the number |
| FragmentGenerator.DecimalStringSign | convertor_audio/generador.py:44 | `str(n)` starts with `-` exactly for a negative n, followed by the digits of its magnitude |
| FragmentGenerator.DecimalStringInjective | convertor_audio/generador.py:44 | different integers have different decimal strings |
| FragmentGenerator.PauseName | convertor_audio/generador.py:44 | a pause is named `silencio_...ms` |
| FragmentGenerator.PauseNamesDistinct | convertor_audio/generador.py:44 | different pause lengths get different names |
| FragmentGenerator.Generate | convertor_audio/generador.py:29-58 | the generator yields exactly the specified fragments |
| FragmentGenerator.FlushPauses | convertor_audio/generador.py:39-43 | closing a block adds no silence |
| FragmentGenerator.FlushWellFormed | convertor_audio/generador.py:39-43 | closing a block keeps every fragment well formed |
| FragmentGenerator.FeedPauses | convertor_audio/generador.py:33-52 | the loop's silences are exactly the timed pauses so far |
| FragmentGenerator.FeedWellFormed | convertor_audio/generador.py:33-52 | the loop keeps every fragment well formed |
| FragmentGenerator.GeneratedPauses | convertor_audio/generador.py:29-58 | whatever the engine does, the silences are exactly the timed pauses in order, each named after its time, and no voice fragment is empty |
| FragmentGenerator.FlushSpoken | convertor_audio/generador.py:39-43 | with audio always produced, closing a block voices exactly its words in the current language |
| FragmentGenerator.FeedSpoken | convertor_audio/generador.py:33-52 | voiced words plus the pending block are exactly the non-pause tokens so far, and a pending block always has a language |
| FragmentGenerator.StepSpoken | convertor_audio/generador.py:33-52 | one iteration keeps that balance: a timed pause adds no word, any other token adds itself with its language |
| FragmentGenerator.GeneratedSpeaksWords | convertor_audio/generador.py:29-58 | with audio always produced and every word tagged, the voiced words are exactly the non-pause tokens in order, each in its own language |
| FragmentGenerator.UntimedMarkJoinsNextBlock | convertor_audio/generador.py:45-52 | a pause mark without a time resets the language and is voiced with the next word's language |
| FragmentGenerator.GttsCode | convertor_audio/generador.py:83-84 | es iff español, en iff ingles, nothing otherwise |
| FragmentGenerator.RemoveQuotes | convertor_audio/generador.py:90 | the result has no quote, is no longer than the input, and a quote-free input is unchanged |
| FragmentGenerator.RemoveQuotesSnoc | convertor_audio/generador.py:90 | every character other than a quote is kept, in order |
| FragmentGenerator.SpeechText | convertor_audio/generador.py:88-90 | the spoken text has no quote |
| FragmentGenerator.GttsFragment | convertor_audio/generador.py:82-100 | an unsupported language gives no audio without calling the engine; otherwise audio iff synthesis of the cleaned text succeeds, named by the namer |
| InputKind.BuildPrefixes | Extraccion_datos.py:54-66 | falsy gives (http://, https://); all non-empty string schemes give `scheme://` each, in order; any other scheme gives the defaults; a non-iterable raises |
| InputKind.StringSchemesSplit | Extraccion_datos.py:61-62 | the string `ftp` is iterated by character, giving f://, t://, p:// |
| InputKind.FixScheme | Extraccion_datos.py:86-88 | a URL without an allowed prefix gets `http://` in front, any other is unchanged |
| InputKind.FixSchemeIdempotent | Extraccion_datos.py:86-88 | when http:// is allowed, fixing twice is fixing once |
| InputKind.FixSchemeNotIdempotent | Extraccion_datos.py:86-88 | with only ftp:// allowed, `http://` is prepended on every pass |
| InputKind.DetermineKind | Extraccion_datos.py:70-99 | None, a list or a tuple raises in the file test; otherwise file first, then URL, returned as `FixScheme` of the string with the built prefixes (unchanged when an allowed prefix is already there), then any string as plain text, else (an integer or boolean) no kind; the input is returned unchanged except for a fixed URL |
| InputKind.IsFile | Extraccion_datos.py:73 | `os.path.isfile` raises exactly on values `os.stat` refuses with `TypeError`, and answers for a string path |
| InputKind.NonStringGetsNoKind | Extraccion_datos.py:73-99 | an integer or boolean that is not a file gets no kind |
| InputKind.DetermineKindDefault | extraccion_validacion/tipo_datos.py:37-72 | the refactored decision is the original with no schemes, whatever schemes are passed, and raises only in the file test |
| InputKind.DefaultKindAgrees | extraccion_validacion/tipo_datos.py:42-72 | both versions agree whenever the schemes fall back to the defaults |
| InputKind.TextIsValid | extraccion_validacion/validacion_datos.py:22-37 | valid iff a string with a non-whitespace character |
| InputKind.NoSlashRun | extraccion_validacion/validacion_datos.py:90 | the maximal run of non-`/` characters from a position |
| InputKind.ExtractDomain | extraccion_validacion/validacion_datos.py:90-91 | the domain has no `/`; none iff the input is empty or starts with `/`; after `http://` or `https://` followed by a non-`/`, it is the run after the prefix; otherwise it is the run from the start |
| InputKind.FtpDomain | extraccion_validacion/validacion_datos.py:90-91 | `ftp://x.org` gives the domain `ftp:`, since only the http and https prefixes are skipped |
| InputKind.DomainExamples | extraccion_validacion/validacion_datos.py:90-91 | `https://ejemplo.es/noticia` gives `ejemplo.es`; `http:///x` backtracks to `http:` |
| InputKind.UrlIsValid | extraccion_validacion/validacion_datos.py:80-104 | valid iff the URL predicate holds and the domain predicate holds of the extracted domain |
| InputKind.PlainText | Extraccion_datos.py:199-209 | a value comes back exactly when the input is a string; anything else gives None |
| InputKind.PlainTextStripped | Extraccion_datos.py:199-209 | the string comes back as the slice left after cutting off its leading and trailing whitespace: everything cut off is whitespace, the result neither starts nor ends with whitespace, and it is empty exactly when the input is blank |
| InputKind.SplitExt | Extraccion_datos.py:217 | the name splits into base and extension that concatenate back to it; the extension starts at a dot and holds no other dot or slash; it is non-empty exactly when the last dot lies in the last path component with a non-dot character before it there, and then it starts at that last dot |
| InputKind.SplitExtOfName | Extraccion_datos.py:217 | `name.ext` splits into `name` and `.ext` |
| InputKind.SplitExtOfHiddenFile | Extraccion_datos.py:217 | a leading-dot name has no extension |
| InputKind.ExtractFile | Extraccion_datos.py:213-233 | an extension outside .txt/.json/.pdf (lowercased) gives None; otherwise the reader's text, or None when it raises |
| InputKind.FormatExamples | Extraccion_datos.py:217-223 | `notas.TXT` is read as text; the hidden file `.txt` is not |

## Findings

| source | as written | input that shows it | evidently intended | confidence | as-written member | corrected member |
|---|---|---|---|---|---|---|
| procesado_datos/procesar_texto.py:71-75 | the opener test runs before the closer test, and `"` and `'` are in both sets, so a quote always opens a new frame; the quote entries in `delimitadores_cierra` can never be used | tokens `"`, `hola`, `"` give an empty quote group followed by the group holding `hola`, both left open until the end | a quote closes the innermost frame it opened: one protected group holding `hola` | high, not executed | ProtectedGrouping.QuoteNeverCloses | ProtectedGrouping.QuotedRunCloses |

`ProtectedGrouping.GroupStep` takes a `Version`. `AsWritten` follows the
source's order of tests. `Intended` tests the innermost frame's closer first.
The two agree on brackets, which are never both opener and closer.
`GroupTokens` and `GroupLines` take the version too, so the loop runs either
reading. The content lemmas
(`GroupedContents`, `GroupedLeaves`) are proved for both versions.

## Left out

- NLTK tokenization, stopword loading and `langid.classify` are parameters. The model does not capture what they compute, nor `langid.set_languages`.
- `lru_cache` on the detectors and on `limpiar_token` is memoization. It does not change results.
- Speech synthesis, temporary files and `os.remove` are left out. Each engine is a function.
- `combinaraudios` is left out: crossfades, RMS measurement and the mp3 export, together with `combinador.py`, `exportador.py`, `limpiador.py` and `nombre.py`.
- AudioBatching.AddSilence: a silence merges into a last unit that is a silence. The source tests `rms == 0`, so it would also merge into a silent speech clip. Audio samples are not modelled.
- AudioBatching.Generate: the gTTS and pyttsx3 internals are functions. Only the gTTS language mapping and word expansion are modelled (`GttsAudio`). pyttsx3's voice selection, rate and volume are not.
- FragmentGenerator.GttsFragment: only the gTTS fragment maker is modelled. The pyttsx3 one drives an audio engine.
- File reading, JSON and PDF parsing, HTTP scraping, and `extraccion_validacion/extraccion_datos.py` are I/O. The reader is a parameter of `ExtractFile`.
- `ValidadorDatos.archivo` is left out. It consists of MIME checks through `magic` and file-system tests.
- The `validators` library is represented only by the predicates `esUrl` and `esDominio`.
- `main.py`, `UI.py`, `Logger.py`, the tqdm progress bar (`mostrar_progreso`) and the three `gestionador.py` files are orchestration and presentation.
- Text.LowerChar: `str.lower` is modelled for ASCII and the Latin-1 letters only. Other scripts keep their case.
- TextStages.MarkToken: requires a string `token` field. Records without one make the source raise `KeyError` or fail a comparison, and the model does not represent that failure.
- AudioBatching.ConvertTextToSpeech: requires every tuple to hold a string and a string or `None`. The source handles other element types in ways the model does not represent. A non-string word with a language joins the block; generation then fails inside its `try` and returns `None`, so the block is dropped silently. A word with language `None` is iterated character by character, and each element is looked up in the pause table. A list is scanned element by element. A non-iterable word, or one with an unhashable element, raises `TypeError`, and nothing catches it, because the loop's `try` has only a `finally`.
- FragmentGenerator.Generate: `tiempo_silencio` is an optional integer. Non-integer truthy values and a missing `token` or `idioma` key are not modelled.
- InputKind.SplitExt follows POSIX `os.path.splitext`. Windows drive letters and backslashes are not modelled.
- InputKind.ExtractFile takes the path as a string. A non-string path, which makes the source return `None` from its `except`, is not modelled.
