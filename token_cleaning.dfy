/** `procesado_datos/limpieza_texto.py`: `LimpiarPalabras.limpiar_token`
    classifies one raw token as a word or punctuation and normalises it;
    `limpiar` applies it to every token of every segment. */
module TokenCleaning {
  import opened Text
  import SpanScanner

  /** The dictionary `limpiar_token` returns. */
  datatype TokenInfo = TokenInfo(token: string, esPalabra: bool, esPuntuacion: bool)

  /** One character of the class `[.,:;!?\-]`. */
  predicate IsLinePunctChar(c: char)
  {
    c in {'.', ',', ':', ';', '!', '?', '-'}
  }

  /** One or more characters of `[.,:;!?\-]` and nothing else. */
  predicate AllPunct(s: string)
  {
    |s| > 0 && forall i :: 0 <= i < |s| ==> IsLinePunctChar(s[i])
  }

  /** One or more characters of the word class and nothing else. */
  predicate AllWord(s: string)
  {
    |s| > 0 && forall i :: 0 <= i < |s| ==> SpanScanner.IsWordChar(s[i])
  }

  /** `re.match(r"^[.,:;!?\-]+$", s)`: Python's `$` also matches right
      before a final newline, so one trailing `"\n"` is allowed. */
  predicate PunctMatch(s: string)
  {
    AllPunct(s) || (|s| > 0 && s[|s| - 1] == '\n' && AllPunct(s[..|s| - 1]))
  }

  /** `re.match(r"^[word class]+$", s)`, with the same trailing newline. */
  predicate WordMatch(s: string)
  {
    AllWord(s) || (|s| > 0 && s[|s| - 1] == '\n' && AllWord(s[..|s| - 1]))
  }

  /** `LimpiarPalabras.limpiar_token`: the token stripped and lowercased,
      and the two flags computed on the raw token. */
  function CleanToken(token: string): (r: TokenInfo)
    ensures !(r.esPalabra && r.esPuntuacion)
    ensures r.esPuntuacion <==> PunctMatch(token)
    ensures r.esPalabra <==>
              WordMatch(token) && !PunctMatch(token)
    ensures |r.token| <= |token| && (r.token == [] <==> IsBlank(token))
  {
    StripSpec(token);
    var palabra := WordMatch(token);
    var puntuacion := PunctMatch(token);
    TokenInfo(Lower(Strip(token)), palabra && !puntuacion, puntuacion)
  }

  /** The normalised token is the raw token with its surrounding whitespace
      cut off, lowercased character by character: it starts at the first
      non-whitespace character and ends at the last one. */
  lemma CleanTokenText(token: string)
    ensures var a := |token| - |TrimStartBy(token, IsSpace)|;
            var r := CleanToken(token).token;
            a + |r| <= |token|
            && (forall i :: 0 <= i < |r| ==> r[i] == LowerChar(token[a + i]))
            && (forall i :: 0 <= i < a ==> IsSpace(token[i]))
            && (forall i :: a + |r| <= i < |token| ==> IsSpace(token[i]))
            && (r != [] ==> !IsSpace(token[a]) && !IsSpace(token[a + |r| - 1]))
  {
    StripSpec(token);
    var a := |token| - |TrimStartBy(token, IsSpace)|;
    var s := Strip(token);
    assert StrippedAt(token, a, s);
    assert CleanToken(token).token == Lower(s);
    LoweredSlice(token, a, s, Lower(s));
  }

  lemma LoweredSlice(token: string, a: int, s: string, r: string)
    requires StrippedAt(token, a, s) && r == Lower(s)
    ensures a + |r| <= |token|
    ensures forall i :: 0 <= i < |r| ==> r[i] == LowerChar(token[a + i])
    ensures forall i :: 0 <= i < a ==> IsSpace(token[i])
    ensures forall i :: a + |r| <= i < |token| ==> IsSpace(token[i])
    ensures r != [] ==> !IsSpace(token[a]) && !IsSpace(token[a + |r| - 1])
  {
  }

  /** A hyphen belongs to both character classes, and punctuation wins. */
  lemma HyphenIsPunctuation(t: string)
    requires t == "-"
    ensures CleanToken(t).esPuntuacion && !CleanToken(t).esPalabra
  {
    assert AllPunct(t);
  }

  /** The flags look at the raw token: a word with a leading space is
      neither a word nor punctuation, though its normalised form is the bare
      word. */
  lemma LeadingSpaceIsNeither(t: string)
    requires t == " hola"
    ensures !CleanToken(t).esPalabra && !CleanToken(t).esPuntuacion
  {
    assert !SpanScanner.IsWordChar(t[0]) && !IsLinePunctChar(t[0]);
    assert t[..|t| - 1][0] == t[0];
  }

  /** A word followed by one newline still counts as a word, because of how
      `$` matches. */
  lemma TrailingNewlineWord(t: string)
    requires t == "si\n"
    ensures CleanToken(t).esPalabra
  {
    assert AllWord(t[..|t| - 1]) by {
      assert t[..|t| - 1] == "si";
    }
    assert !IsLinePunctChar(t[0]);
    assert !PunctMatch(t) by {
      assert t[..|t| - 1][0] == 's';
    }
  }

  /** A segment as `ObtenerTokens` produces it: the sentence and its tokens. */
  datatype Segment = Segment(linea: string, tokens: seq<string>)

  /** `{'linea', 'tokens_limpios'}`. */
  datatype CleanSegment = CleanSegment(linea: string, tokensLimpios: seq<TokenInfo>)

  /** `LimpiarPalabras.limpiar`: the number of segments, each `linea`, and
      the number and order of tokens are kept; every token is cleaned on its
      own. */
  function Limpiar(segmentos: seq<Segment>): (r: seq<CleanSegment>)
    ensures |r| == |segmentos|
    ensures forall i :: 0 <= i < |r| ==>
              r[i].linea == segmentos[i].linea && |r[i].tokensLimpios| == |segmentos[i].tokens|
    ensures forall i, j :: 0 <= i < |r| && 0 <= j < |r[i].tokensLimpios| ==>
              r[i].tokensLimpios[j] == CleanToken(segmentos[i].tokens[j])
  {
    seq(|segmentos|, i requires 0 <= i < |segmentos| =>
      CleanSegment(segmentos[i].linea,
        seq(|segmentos[i].tokens|, j requires 0 <= j < |segmentos[i].tokens| => CleanToken(segmentos[i].tokens[j]))))
  }
}
