/** `limpiar_palabras`: the index-driven scanner that sorts the raw tokens of
    one line into words, punctuation, single protected words and multi-word
    protected phrases, using quote and parenthesis spans.

    `Procesado_datos.py:366-493` (the static method of `ProcesadoDatos`) and
    `procesado_datos/limpeza_texto.py:9-136` (a module-level function) are
    the same code; it is modelled once here. */
module SpanScanner {
  import opened Base
  import opened Text

  /** The four tags the scanner attaches: 'palabra', 'puntuacion',
      'palabra_protegida', 'palabras_protegidas'. */
  datatype Kind = Word | Punct | ProtectedWord | ProtectedPhrase

  datatype Entry = Entry(text: string, kind: Kind)

  /** One character of the class `[A-Za-z0-9ÁÉÍÓÚÜÑáéíóúüñ_+#\-']`. */
  predicate IsWordChar(c: char)
  {
    ('A' <= c <= 'Z') || ('a' <= c <= 'z') || ('0' <= c <= '9')
    || c in {'Á', 'É', 'Í', 'Ó', 'Ú', 'Ü', 'Ñ', 'á', 'é', 'í', 'ó', 'ú', 'ü', 'ñ'}
    || c == '_' || c == '+' || c == '#' || c == '-' || c == '\''
  }

  /** `patron.fullmatch(s)`: one or more word characters and nothing else. */
  predicate IsWord(s: string)
  {
    |s| > 0 && forall i :: 0 <= i < |s| ==> IsWordChar(s[i])
  }

  /** One character of the class `[.,;:()\[\]{}'"]`. */
  predicate IsPunctChar(c: char)
  {
    c in {'.', ',', ';', ':', '(', ')', '[', ']', '{', '}', '\'', '"'}
  }

  /** `re.fullmatch(r"[\.,;:()\[\]{}'\"]+", token)`. */
  predicate IsPunctToken(s: string)
  {
    |s| > 0 && forall i :: 0 <= i < |s| ==> IsPunctChar(s[i])
  }

  /** One character of the class `["'()\[\]{}]` that the cleanup regexes strip. */
  predicate IsDelim(c: char)
  {
    c in {'"', '\'', '(', ')', '[', ']', '{', '}'}
  }

  /** `re.sub(r"[\"'\(\)\[\]\{\}]+$", "", s)`. Python's `$` also matches just
      before a final newline, so a run of delimiters right before a trailing
      `"\n"` is removed too. */
  function StripTrailingDelims(s: string): (r: string)
    ensures |r| <= |s|
    ensures |s| > 0 && IsDelim(s[|s| - 1]) ==> r == TrimEndBy(s, IsDelim)
    ensures |s| > 0 && s[|s| - 1] != '\n' ==> r == TrimEndBy(s, IsDelim)
  {
    if |s| > 0 && s[|s| - 1] == '\n' then TrimEndBy(s[..|s| - 1], IsDelim) + "\n"
    else TrimEndBy(s, IsDelim)
  }

  /** The trailing cleanup keeps the text up to `r` and `kept` marks where
      the cut run of delimiters starts: `body` is `s` without its final
      newline, and a final newline is kept after the cut. */
  predicate TrailingCut(body: string, r: string, kept: int, newline: bool)
  {
    0 <= kept <= |body| && |r| == kept + (if newline then 1 else 0)
    && (forall i :: 0 <= i < kept ==> r[i] == body[i])
    && (forall i :: kept <= i < |body| ==> IsDelim(body[i]))
    && (kept > 0 ==> !IsDelim(body[kept - 1]))
    && (newline ==> r[kept] == '\n')
  }

  /** What the trailing cleanup keeps and removes: without a final newline,
      a prefix of `s` followed in `s` by delimiters only; with one, as `$`
      matches just before it, the same for the text before the newline, and
      the newline kept. */
  lemma StripTrailingDelimsSpec(s: string)
    ensures var nl := |s| > 0 && s[|s| - 1] == '\n';
            var body := if nl then s[..|s| - 1] else s;
            var r := StripTrailingDelims(s);
            TrailingCut(body, r, if nl then |r| - 1 else |r|, nl)
  {
    if |s| > 0 && s[|s| - 1] == '\n' {
      TrimEndSpec(s[..|s| - 1], IsDelim);
    } else {
      TrimEndSpec(s, IsDelim);
    }
  }

  /** `re.sub(r"^[\"'\(\)\[\]\{\}]+|[\"'\(\)\[\]\{\}]+$", "", s)`: the leading
      run of delimiters goes first, then the trailing one in what is left. */
  function StripDelims(s: string): (r: string)
    ensures |r| <= |s|
  {
    StripTrailingDelims(TrimStartBy(s, IsDelim))
  }

  /** The whole cleanup: everything before `a` is a delimiter and the text
      from `a` on does not start with one; from there the trailing cleanup
      applies, so the result keeps `s[a..]` up to a final run of
      delimiters (before a final newline, which stays). */
  lemma StripDelimsSpec(s: string)
    ensures var a := |s| - |TrimStartBy(s, IsDelim)|;
            var nl := |s| > a && s[|s| - 1] == '\n';
            var r := StripDelims(s);
            (forall i :: 0 <= i < a ==> IsDelim(s[i]))
            && (a < |s| ==> !IsDelim(s[a]))
            && TrailingCut(if nl then s[a..|s| - 1] else s[a..], r, if nl then |r| - 1 else |r|, nl)
  {
    var t := TrimStartBy(s, IsDelim);
    TrimStartSpec(s, IsDelim);
    StripTrailingDelimsSpec(t);
    var a := |s| - |t|;
    var r := StripTrailingDelims(t);
    assert r == StripDelims(s);
    assert t == s[a..];
    var nl := |s| > a && s[|s| - 1] == '\n';
    assert nl == (|t| > 0 && t[|t| - 1] == '\n');
    if nl {
      assert t[..|t| - 1] == s[a..|s| - 1];
      assert TrailingCut(s[a..|s| - 1], r, |r| - 1, true);
    } else {
      assert TrailingCut(s[a..], r, |r|, false);
    }
  }

  /** A string that neither starts nor ends with a delimiter, nor ends with a
      newline, is left as it is by the delimiter cleanup. */
  lemma StripDelimsKeepsClean(s: string)
    requires |s| > 0 && !IsDelim(s[0]) && !IsDelim(s[|s| - 1]) && s[|s| - 1] != '\n'
    ensures StripDelims(s) == s
  {
  }

  /** A token of length above 2 wrapped in `""`, `''` or `()`. */
  predicate IsWrapped(t: string)
  {
    |t| > 2 &&
    ((t[0] == '"' && t[|t| - 1] == '"') || (t[0] == '\'' && t[|t| - 1] == '\'')
     || (t[0] == '(' && t[|t| - 1] == ')'))
  }

  /** A token that starts with `(`, `"` or `'` may open a span. */
  predicate OpensSpan(t: string)
  {
    |t| > 0 && (t[0] == '(' || t[0] == '"' || t[0] == '\'')
  }

  /** The delimiter that closes the span `t` opens: `)` for `(`, otherwise
      the opening quote itself. */
  function Closer(t: string): (c: char)
    requires OpensSpan(t)
    ensures IsDelim(c) && IsPunctChar(c)
    ensures c == ')' <==> t[0] == '('
  {
    if t[0] == '(' then ')' else t[0]
  }

  predicate EndsWithChar(s: string, c: char)
  {
    |s| > 0 && s[|s| - 1] == c
  }

  /** What the opening token contributes to the span's inner words: when it
      does not itself end with the closer, the token with every leading
      opening delimiter removed (`token.lstrip(apertura)`), if anything is
      left. */
  function FirstSegment(t: string): (ws: seq<string>)
    requires OpensSpan(t)
    ensures |ws| <= 1
    ensures forall w :: w in ws ==> |w| > 0 && w[0] != t[0]
  {
    if EndsWithChar(t, Closer(t)) then []
    else
      var rest := TrimStartBy(t, c => c == t[0]);
      TrimStartSpec(t, c => c == t[0]);
      if rest != [] then [rest] else []
  }

  /** A token that does not end with its closer contributes what is left
      after its leading run of opening delimiters, when something is left:
      a suffix of the token, starting with another character, preceded in
      the token by opening delimiters only. A token ending with its closer,
      or made only of opening delimiters, contributes nothing. */
  lemma FirstSegmentSpec(t: string)
    requires OpensSpan(t)
    ensures EndsWithChar(t, Closer(t)) ==> FirstSegment(t) == []
    ensures !EndsWithChar(t, Closer(t)) ==>
              (FirstSegment(t) == [] <==> forall i :: 0 <= i < |t| ==> t[i] == t[0])
    ensures FirstSegment(t) != [] ==>
              var w := FirstSegment(t)[0];
              0 < |w| < |t| && w == t[|t| - |w|..] && w[0] != t[0]
              && forall i :: 0 <= i < |t| - |w| ==> t[i] == t[0]
  {
    TrimStartSpec(t, c => c == t[0]);
    var rest := TrimStartBy(t, c => c == t[0]);
    if rest == [] {
      assert forall i :: 0 <= i < |t| ==> t[i] == t[0];
    } else {
      assert rest[0] == t[|t| - |rest|];
    }
  }

  /** The index of the first token at or after `j` that ends with the closer `c`. */
  function SpanEnd(P: seq<string>, j: nat, c: char): (r: Option<nat>)
    ensures r.Some? ==> j <= r.value < |P| && EndsWithChar(P[r.value], c)
    ensures r.Some? ==> forall k :: j <= k < r.value ==> !EndsWithChar(P[k], c)
    ensures r.None? ==> forall k :: j <= k < |P| ==> !EndsWithChar(P[k], c)
    decreases |P| - j
  {
    if j >= |P| then None
    else if EndsWithChar(P[j], c) then Some(j)
    else SpanEnd(P, j + 1, c)
  }

  /** `palabras_internas` once the closer was found at `k`: the first segment,
      the tokens strictly between, and the closing token with its trailing
      delimiters removed (when something is left of it). */
  function InnerWords(P: seq<string>, i: nat, k: nat): seq<string>
    requires i < k < |P| && OpensSpan(P[i])
  {
    var last := StripTrailingDelims(P[k]);
    FirstSegment(P[i]) + P[i + 1..k] + (if last != [] then [last] else [])
  }

  /** The inner words, each cleaned of surrounding delimiters, keeping only
      those that fully match the word pattern. */
  function ValidWords(ws: seq<string>): (v: seq<string>)
    ensures |v| <= |ws|
    ensures forall w :: w in v ==> IsWord(w)
  {
    if ws == [] then []
    else
      var w := StripDelims(ws[0]);
      (if IsWord(w) then [w] else []) + ValidWords(ws[1..])
  }

  /** The inner words are cleaned and filtered one by one, in order:
      the valid words of a concatenation are those of each part. */
  lemma {:induction false} ValidWordsAppend(a: seq<string>, b: seq<string>)
    ensures ValidWords(a + b) == ValidWords(a) + ValidWords(b)
    decreases |a|
  {
    if a != [] {
      assert (a + b)[0] == a[0] && (a + b)[1..] == a[1..] + b;
      ValidWordsAppend(a[1..], b);
    } else {
      assert a + b == b;
    }
  }

  /** A word is among the valid words exactly when it fully matches the
      word pattern and is the cleanup of one of the inner words. */
  lemma {:induction false} ValidWordsMembers(ws: seq<string>)
    ensures forall w :: w in ValidWords(ws) <==>
              IsWord(w) && exists i :: 0 <= i < |ws| && StripDelims(ws[i]) == w
    decreases |ws|
  {
    if ws != [] {
      ValidWordsMembers(ws[1..]);
      forall w | IsWord(w) && (exists i :: 0 <= i < |ws| && StripDelims(ws[i]) == w)
        ensures w in ValidWords(ws)
      {
        var i :| 0 <= i < |ws| && StripDelims(ws[i]) == w;
        if i > 0 {
          assert StripDelims(ws[1..][i - 1]) == w;
        }
      }
      forall w | w in ValidWords(ws)
        ensures exists i :: 0 <= i < |ws| && StripDelims(ws[i]) == w
      {
        if w !in ValidWords(ws[1..]) {
          assert StripDelims(ws[0]) == w;
        } else {
          var i :| 0 <= i < |ws[1..]| && StripDelims(ws[1..][i]) == w;
          assert StripDelims(ws[i + 1]) == w;
        }
      }
    }
  }

  /** What a closed span emits and where scanning resumes. */
  datatype SpanMatch = SpanMatch(entries: seq<Entry>, next: nat)

  /** The span rule at index `i`: it fires only when the closer is found and
      exactly one, or more than two, inner words are valid. */
  function SpanRule(P: seq<string>, i: nat): (r: Option<SpanMatch>)
    requires i < |P|
    ensures r.Some? ==> OpensSpan(P[i]) && SpanEnd(P, i + 1, Closer(P[i])).Some?
    ensures r.Some? ==> r.value.next == SpanEnd(P, i + 1, Closer(P[i])).value + 1 <= |P|
    ensures r.Some? ==>
              |r.value.entries| == 3 && r.value.entries[0] == Entry([P[i][0]], Punct)
              && r.value.entries[2] == Entry([Closer(P[i])], Punct)
    ensures r.Some? ==>
              var v := ValidWords(InnerWords(P, i, r.value.next - 1));
              (|v| == 1 || |v| > 2)
              && (|v| > 2 ==> r.value.entries[1] == Entry(Join(v, " "), ProtectedPhrase))
              && (|v| == 1 ==> r.value.entries[1] == Entry(v[0], ProtectedWord))
  {
    if !OpensSpan(P[i]) then None
    else
      var c := Closer(P[i]);
      match SpanEnd(P, i + 1, c)
      case None => None
      case Some(k) =>
        var v := ValidWords(InnerWords(P, i, k));
        if |v| > 2 then
          Some(SpanMatch([Entry([P[i][0]], Punct), Entry(Join(v, " "), ProtectedPhrase), Entry([c], Punct)], k + 1))
        else if |v| == 1 then
          Some(SpanMatch([Entry([P[i][0]], Punct), Entry(v[0], ProtectedWord), Entry([c], Punct)], k + 1))
        else None
  }

  /** The rules every token that starts no protected span goes through: a
      punctuation-only token is kept as is; otherwise the token is cleaned
      of surrounding delimiters and kept as a word only if it matches the
      word pattern. */
  function NormalRule(t: string): (es: seq<Entry>)
    ensures |es| <= 1
    ensures IsPunctToken(t) ==> es == [Entry(t, Punct)]
    ensures !IsPunctToken(t) ==> (es != [] <==> IsWord(StripDelims(t)))
    ensures !IsPunctToken(t) && es != [] ==> es[0] == Entry(StripDelims(t), Word)
  {
    if IsPunctToken(t) then [Entry(t, Punct)]
    else
      var limpio := StripDelims(t);
      if IsWord(limpio) then [Entry(limpio, Word)] else []
  }

  /** What the scanner emits for the token at `i`, and where it resumes: a
      wrapped single token, else a closed span, else the normal rules. */
  function Step(P: seq<string>, i: nat): (m: SpanMatch)
    requires i < |P|
    ensures i < m.next <= |P|
    ensures IsWrapped(P[i]) && IsWord(P[i][1..|P[i]| - 1]) ==>
              m == SpanMatch([Entry(P[i][1..|P[i]| - 1], ProtectedWord)], i + 1)
    ensures !(IsWrapped(P[i]) && IsWord(P[i][1..|P[i]| - 1])) && SpanRule(P, i).Some? ==>
              m == SpanRule(P, i).value
    ensures !(IsWrapped(P[i]) && IsWord(P[i][1..|P[i]| - 1])) && SpanRule(P, i).None? ==>
              m == SpanMatch(NormalRule(P[i]), i + 1)
  {
    if IsWrapped(P[i]) && IsWord(P[i][1..|P[i]| - 1]) then
      SpanMatch([Entry(P[i][1..|P[i]| - 1], ProtectedWord)], i + 1)
    else
      match SpanRule(P, i)
      case Some(m) => m
      case None => SpanMatch(NormalRule(P[i]), i + 1)
  }

  /** The whole scan from index `i` on: what `limpiar_palabras` returns when
      `i` is 0. */
  function ScanFrom(P: seq<string>, i: nat): seq<Entry>
    decreases |P| - i
  {
    if i >= |P| then [] else Step(P, i).entries + ScanFrom(P, Step(P, i).next)
  }

  /** The inner `while j` loop: starting after the opening token, collect
      tokens until one ends with the closer. */
  method FindCloser(palabras: seq<string>, i: nat, cierre: char)
    returns (encontrado: bool, j: nat, internas: seq<string>)
    requires i < |palabras| && OpensSpan(palabras[i]) && cierre == Closer(palabras[i])
    ensures encontrado <==> SpanEnd(palabras, i + 1, cierre).Some?
    ensures encontrado ==>
              SpanEnd(palabras, i + 1, cierre) == Some(j) && internas == InnerWords(palabras, i, j)
  {
    var token := palabras[i];
    internas := OpeningSegment(token, cierre);
    j := i + 1;
    encontrado := false;
    while j < |palabras|
      invariant i + 1 <= j <= |palabras|
      invariant internas == FirstSegment(token) + palabras[i + 1..j]
      invariant SpanEnd(palabras, i + 1, cierre) == SpanEnd(palabras, j, cierre)
      decreases |palabras| - j
    {
      var palabra := palabras[j];
      if EndsWithChar(palabra, cierre) {
        var limpia := StripTrailingDelims(palabra);
        if limpia != [] {
          internas := internas + [limpia];
        }
        encontrado := true;
        return;
      }
      internas := internas + [palabra];
      j := j + 1;
    }
  }

  /** The opening token's own contribution to the inner words, before the
      `while j` loop starts. */
  method OpeningSegment(token: string, cierre: char) returns (internas: seq<string>)
    requires OpensSpan(token) && cierre == Closer(token)
    ensures internas == FirstSegment(token)
  {
    var apertura := token[0];
    internas := [];
    if !EndsWithChar(token, cierre) {
      var primer := TrimStartBy(token, c => c == apertura);
      if primer != [] {
        internas := internas + [primer];
      }
    }
  }

  /** The span branch of one pass: look for the closer, then keep the span
      only when one, or more than two, of its inner words are valid. */
  method ScanSpan(palabras: seq<string>, i: nat) returns (m: Option<SpanMatch>)
    requires i < |palabras| && OpensSpan(palabras[i])
    ensures m == SpanRule(palabras, i)
  {
    var token := palabras[i];
    var apertura := token[0];
    var cierre := if apertura == '(' then ')' else apertura;
    var encontrado, j, internas := FindCloser(palabras, i, cierre);
    m := None;
    if encontrado {
      var validas := ValidWords(internas);
      if |validas| > 2 {
        m := Some(SpanMatch([Entry([apertura], Punct), Entry(Join(validas, " "), ProtectedPhrase), Entry([cierre], Punct)], j + 1));
      } else if |validas| == 1 {
        m := Some(SpanMatch([Entry([apertura], Punct), Entry(validas[0], ProtectedWord), Entry([cierre], Punct)], j + 1));
      }
    }
  }

  /** The rules for a token that starts no protected span. */
  method ScanPlain(token: string) returns (emitidas: seq<Entry>)
    ensures emitidas == NormalRule(token)
  {
    if IsPunctToken(token) {
      return [Entry(token, Punct)];
    }
    var limpio := StripDelims(token);
    if !IsWord(limpio) {
      return [];
    }
    return [Entry(limpio, Word)];
  }

  /** One pass of the outer `while i` loop: the entries emitted for the
      token at `i` and the index scanning resumes at. */
  method ScanToken(palabras: seq<string>, i: nat) returns (emitidas: seq<Entry>, siguiente: nat)
    requires i < |palabras|
    ensures SpanMatch(emitidas, siguiente) == Step(palabras, i)
  {
    var token := palabras[i];
    if IsWrapped(token) {
      var palabra := token[1..|token| - 1];
      if IsWord(palabra) {
        return [Entry(palabra, ProtectedWord)], i + 1;
      }
    }
    if OpensSpan(token) {
      var m := ScanSpan(palabras, i);
      if m.Some? {
        return m.value.entries, m.value.next;
      }
    }
    emitidas := ScanPlain(token);
    siguiente := i + 1;
  }

  /** `limpiar_palabras(palabras)`. A value that is not a list is `None`
      here. */
  method CleanWords(input: Option<seq<string>>) returns (resultado: seq<Entry>)
    ensures input.None? ==> resultado == []
    ensures input.Some? ==> resultado == ScanFrom(input.value, 0)
  {
    if input.None? {
      return [];
    }
    var palabras := input.value;
    resultado := [];
    var i := 0;
    while i < |palabras|
      invariant 0 <= i <= |palabras|
      invariant resultado + ScanFrom(palabras, i) == ScanFrom(palabras, 0)
      decreases |palabras| - i
    {
      var emitidas, siguiente := ScanToken(palabras, i);
      resultado := resultado + emitidas;
      i := siguiente;
    }
  }

  /** Text of a 'palabras_protegidas' entry: word characters and single
      spaces, starting and ending with a word character. */
  predicate IsPhrase(s: string)
  {
    |s| > 0 && IsWordChar(s[0]) && IsWordChar(s[|s| - 1])
    && forall i :: 0 <= i < |s| ==> IsWordChar(s[i]) || s[i] == ' '
  }

  /** The shape each tag promises of its text. */
  predicate WellFormed(e: Entry)
  {
    match e.kind
    case Word => IsWord(e.text)
    case ProtectedWord => IsWord(e.text)
    case Punct => IsPunctToken(e.text)
    case ProtectedPhrase => IsPhrase(e.text)
  }

  /** A space-joined list of words is a phrase. */
  lemma JoinedWordsArePhrase(v: seq<string>)
    requires |v| > 0 && forall w :: w in v ==> IsWord(w)
    ensures IsPhrase(Join(v, " "))
  {
    JoinedWordChars(v);
    JoinedWordEnds(v);
  }

  /** Joining words with spaces gives word characters and spaces only. */
  lemma JoinedWordChars(v: seq<string>)
    requires forall w :: w in v ==> IsWord(w)
    ensures forall i :: 0 <= i < |Join(v, " ")| ==> IsWordChar(Join(v, " ")[i]) || Join(v, " ")[i] == ' '
  {
    var ok := c => IsWordChar(c) || c == ' ';
    forall w, i | w in v && 0 <= i < |w| ensures ok(w[i]) {
      assert IsWord(w);
    }
    JoinChars(v, " ", ok);
  }

  /** Joining words starts and ends with a word character. */
  lemma JoinedWordEnds(v: seq<string>)
    requires |v| > 0 && forall w :: w in v ==> IsWord(w)
    ensures |Join(v, " ")| > 0 && IsWordChar(Join(v, " ")[0]) && IsWordChar(Join(v, " ")[|Join(v, " ")| - 1])
  {
    var first, last := v[0], v[|v| - 1];
    assert first in v && last in v;
    JoinEnds(v, " ");
    assert IsWordChar(first[0]) && IsWordChar(last[|last| - 1]);
  }



  lemma StepWellFormed(P: seq<string>, i: nat)
    requires i < |P|
    ensures forall e :: e in Step(P, i).entries ==> WellFormed(e)
  {
    var t := P[i];
    if IsWrapped(t) && IsWord(t[1..|t| - 1]) {
      assert Step(P, i).entries == [Entry(t[1..|t| - 1], ProtectedWord)];
    } else if SpanRule(P, i).Some? {
      assert Step(P, i) == SpanRule(P, i).value;
      SpanStepWellFormed(P, i);
    } else {
      assert Step(P, i).entries == NormalRule(t);
    }
  }

  /** A closed span gives its two delimiters as pauses around a protected
      word or phrase. */
  lemma SpanStepWellFormed(P: seq<string>, i: nat)
    requires i < |P| && SpanRule(P, i).Some?
    ensures forall e :: e in SpanRule(P, i).value.entries ==> WellFormed(e)
  {
    var t := P[i];
    var c := Closer(t);
    var k := SpanEnd(P, i + 1, c).value;
    var v := ValidWords(InnerWords(P, i, k));
    var es := SpanRule(P, i).value.entries;
    assert WellFormed(Entry([t[0]], Punct));
    assert WellFormed(Entry([c], Punct));
    if |v| > 2 {
      JoinedWordsArePhrase(v);
      assert es == [Entry([t[0]], Punct), Entry(Join(v, " "), ProtectedPhrase), Entry([c], Punct)];
    } else {
      assert v[0] in v;
      assert es == [Entry([t[0]], Punct), Entry(v[0], ProtectedWord), Entry([c], Punct)];
    }
  }

  /** Every 'palabra' and 'palabra_protegida' text fully matches the word
      pattern, every 'puntuacion' text is made of punctuation characters
      only, and every phrase is words joined by spaces. */
  lemma {:induction false} ScanWellFormed(P: seq<string>, i: nat)
    ensures forall e :: e in ScanFrom(P, i) ==> WellFormed(e)
    decreases |P| - i
  {
    if i < |P| {
      StepWellFormed(P, i);
      ScanWellFormed(P, Step(P, i).next);
    }
  }

  /** A plain word: matches the word pattern and holds no apostrophe, so it
      neither opens a span nor loses a character to the cleanup. */
  predicate IsPlainWord(t: string)
  {
    IsWord(t) && '\'' !in t
  }

  /** One plain word becomes one 'palabra' with its text unchanged. */
  lemma PlainWordStep(P: seq<string>, i: nat)
    requires i < |P| && IsPlainWord(P[i])
    ensures Step(P, i) == SpanMatch([Entry(P[i], Word)], i + 1)
  {
    var t := P[i];
    assert t[0] in t && t[|t| - 1] in t;
    assert IsWordChar(t[0]) && IsWordChar(t[|t| - 1]);
    assert !IsWrapped(t) && !OpensSpan(t);
    assert !IsPunctChar(t[0]);
    StripDelimsKeepsClean(t);
    assert NormalRule(t) == [Entry(t, Word)];
  }

  /** A line of plain words is passed through one for one, each as a
      'palabra', in order. */
  lemma {:induction false} PlainWordsPassThrough(P: seq<string>, i: nat)
    requires i <= |P|
    requires forall t :: t in P ==> IsPlainWord(t)
    ensures |ScanFrom(P, i)| == |P| - i
    ensures forall k :: i <= k < |P| ==> ScanFrom(P, i)[k - i] == Entry(P[k], Word)
    decreases |P| - i
  {
    if i < |P| {
      var t := P[i];
      assert t in P;
      PlainWordStep(P, i);
      PlainWordsPassThrough(P, i + 1);
      var rest := ScanFrom(P, i + 1);
      var all := ScanFrom(P, i);
      assert all == [Entry(t, Word)] + rest;
      forall k | i < k < |P| ensures all[k - i] == Entry(P[k], Word) {
        assert all[k - i] == rest[k - (i + 1)];
      }
    }
  }

  /** `re.match(r"^(?P<word>[...]+)(?P<punct>[\.,;:]+)$", s)` succeeding with
      the word group ending at `k` (the `$` also allows one final newline). */
  predicate SplitsAt(s: string, k: int)
  {
    0 < k < |s| && IsWord(s[..k])
    && (IsClausePunct(s[k..]) || (s[|s| - 1] == '\n' && IsClausePunct(s[k..|s| - 1])))
  }

  predicate IsClausePunct(s: string)
  {
    |s| > 0 && forall i :: 0 <= i < |s| ==> (s[i] == '.' || s[i] == ',' || s[i] == ';' || s[i] == ':')
  }

  /** The split of trailing punctuation off a cleaned token can never
      happen: the scanner only reaches it with a token that fully matches
      the word pattern, and that pattern has none of `.,;:`. So a token such
      as `hola,` is dropped rather than split. */
  lemma TrailingPunctSplitUnreachable(s: string)
    requires IsWord(s)
    ensures forall k :: !SplitsAt(s, k)
  {
    forall k | 0 < k < |s| ensures !SplitsAt(s, k) {
      assert s[k..][0] == s[k];
    }
  }

  /** A token that is not punctuation only and ends in one of `.,;:` is
      dropped: cleanup leaves that last character in place and the word
      pattern has none of them. So `hola,` is dropped rather than split. */
  lemma ClausePunctEndingDropped(t: string)
    requires |t| > 0 && (t[|t| - 1] == '.' || t[|t| - 1] == ',' || t[|t| - 1] == ';' || t[|t| - 1] == ':')
    requires !IsPunctToken(t)
    ensures NormalRule(t) == []
  {
    var u := TrimStartBy(t, IsDelim);
    TrimStartSpec(t, IsDelim);
    var c := t[|t| - 1];
    assert !IsDelim(c) && !IsWordChar(c) && c != '\n';
    if u != [] {
      assert u[|u| - 1] == c;
      assert TrimEndBy(u, IsDelim) == u;
      assert StripDelims(t) == u;
    }
    assert !IsWord(StripDelims(t));
  }

  /** When the span rule does not fire at an opening token (no closer, or
      zero or two valid inner words), nothing is consumed: the opening
      token goes through the normal rules and scanning resumes right after
      it, so no later token is lost. */
  lemma SpanFallThrough(P: seq<string>, i: nat)
    requires i < |P| && OpensSpan(P[i]) && !(IsWrapped(P[i]) && IsWord(P[i][1..|P[i]| - 1]))
    requires var e := SpanEnd(P, i + 1, Closer(P[i]));
      e.None? || (var n := |ValidWords(InnerWords(P, i, e.value))|; n == 0 || n == 2)
    ensures Step(P, i) == SpanMatch(NormalRule(P[i]), i + 1)
    ensures ScanFrom(P, i) == NormalRule(P[i]) + ScanFrom(P, i + 1)
  {
  }

  /** A span fires exactly when its closer is found and one, or more than
      two, inner words are valid; it then consumes every token up to and
      including the closer. */
  lemma SpanFires(P: seq<string>, i: nat)
    requires i < |P| && OpensSpan(P[i])
    ensures SpanRule(P, i).Some? <==>
              var e := SpanEnd(P, i + 1, Closer(P[i]));
              e.Some? && (var n := |ValidWords(InnerWords(P, i, e.value))|; n == 1 || n > 2)
    ensures SpanRule(P, i).Some? ==>
              SpanRule(P, i).value.next == SpanEnd(P, i + 1, Closer(P[i])).value + 1
              && forall k :: i < k < SpanRule(P, i).value.next - 1 ==> !EndsWithChar(P[k], Closer(P[i]))
  {
  }
}
