/** `procesado_datos/procesar_texto.py`, third stage:
    `AgruparProtegidos.agrupar_tokens` nests the tokens between matching
    delimiters into protected groups using a stack of open frames, and
    `AgruparProtegidos.procesar` does so for every segment. */
module ProtectedGrouping {
  import opened Base
  import opened TextStages

  /** An element of the output tree: an unprotected token record
      (`{**token_info, 'protegido': False}`) or a protected group
      (`{'tokens', 'protegido': True, 'delimitador_abre',
      'delimitador_cierra'}`). */
  datatype Node =
    | Plain(fields: Fields)
    | Group(tokens: seq<Node>, abre: string, cierra: string)

  /** A stack frame: `{'abre', 'cierra', 'tokens'}`. */
  datatype Frame = Frame(abre: string, cierra: string, tokens: seq<Node>)

  /** The two local variables of the loop: `grupos` and `stack`. */
  datatype State = State(grupos: seq<Node>, stack: seq<Frame>)

  const Openers: set<string> := {"(", "[", "{", "\"", "'"}
  const Closers: set<string> := {")", "]", "}", "\"", "'"}

  /** The closer each opener expects. */
  function CloserOf(abre: string): (c: string)
    requires abre in Openers
    ensures c in Closers
    ensures (abre == "\"" || abre == "'") <==> c == abre
  {
    if abre == "(" then ")" else if abre == "[" then "]" else if abre == "{" then "}" else abre
  }

  function Unprotected(info: Fields): Fields
  {
    info["protegido" := PyBool(false)]
  }

  function TokenOf(info: Fields): string
    requires HasTokenText(info)
  {
    info["token"].s
  }

  predicate AllTokenText(ts: seq<Fields>)
  {
    forall i :: 0 <= i < |ts| ==> HasTokenText(ts[i])
  }

  /** Appends a node to the innermost open frame, or to the top level when no
      frame is open. */
  function Append(st: State, n: Node): State
  {
    if st.stack == [] then State(st.grupos + [n], [])
    else
      var top := st.stack[|st.stack| - 1];
      State(st.grupos, st.stack[..|st.stack| - 1] + [Frame(top.abre, top.cierra, top.tokens + [n])])
  }

  /** Which reading of `agrupar_tokens` to follow. As written, the opener
      test comes first, and the quotes are openers as well as closers, so a
      quote always opens a new frame and never closes one. As intended, a
      token that is the innermost frame's closer closes it, quotes included.
      For brackets the two readings agree. */
  datatype Version = AsWritten | Intended

  /** Whether `token` closes a frame that expects `cierra`. */
  predicate ClosesTop(token: string, cierra: string, v: Version)
  {
    token in Closers && token == cierra && (v == Intended || token !in Openers)
  }

  /** One iteration of the first loop of `agrupar_tokens`. */
  function GroupStep(st: State, info: Fields, v: Version): State
    requires HasTokenText(info)
  {
    var token := TokenOf(info);
    if st.stack != [] && ClosesTop(token, st.stack[|st.stack| - 1].cierra, v) then
      var top := st.stack[|st.stack| - 1];
      Append(State(st.grupos, st.stack[..|st.stack| - 1]), Group(top.tokens, top.abre, top.cierra))
    else if token in Openers then
      State(st.grupos, st.stack + [Frame(token, CloserOf(token), [])])
    else
      Append(st, Plain(Unprotected(info)))
  }

  /** The state after the first loop has consumed `ts`. */
  function Feed(ts: seq<Fields>, v: Version): State
    requires AllTokenText(ts)
  {
    if ts == [] then State([], [])
    else GroupStep(Feed(ts[..|ts| - 1], v), ts[|ts| - 1], v)
  }

  /** The second loop: frames still open are popped, innermost first, and
      appended to the top level as protected groups. */
  function Flush(st: State): seq<Node>
    decreases |st.stack|
  {
    if st.stack == [] then st.grupos
    else
      var top := st.stack[|st.stack| - 1];
      Flush(State(st.grupos + [Group(top.tokens, top.abre, top.cierra)], st.stack[..|st.stack| - 1]))
  }

  /** What `agrupar_tokens` returns. */
  function Grouped(ts: seq<Fields>, v: Version): seq<Node>
    requires AllTokenText(ts)
  {
    Flush(Feed(ts, v))
  }

  /** `AgruparProtegidos.agrupar_tokens` in either reading. As written, the
      opener test comes first, so a token closes the innermost frame only
      when it is not also an opener; as intended, the innermost frame's
      closer is tested first, so that a second quote closes the frame the
      first one opened. */
  method GroupTokens(tokensLimpios: seq<Fields>, v: Version) returns (grupos: seq<Node>)
    requires AllTokenText(tokensLimpios)
    ensures grupos == Grouped(tokensLimpios, v)
  {
    grupos := [];
    var stack: seq<Frame> := [];
    var i := 0;
    while i < |tokensLimpios|
      invariant 0 <= i <= |tokensLimpios|
      invariant State(grupos, stack) == Feed(tokensLimpios[..i], v)
    {
      assert tokensLimpios[..i + 1][..i] == tokensLimpios[..i];
      var tokenInfo := tokensLimpios[i];
      var token := tokenInfo["token"].s;
      var cierraTope := stack != [] && token in Closers && token == stack[|stack| - 1].cierra;
      if cierraTope && (v == Intended || token !in Openers) {
        var bloque := stack[|stack| - 1];
        stack := stack[..|stack| - 1];
        var grupo := Group(bloque.tokens, bloque.abre, bloque.cierra);
        if stack != [] {
          var top := stack[|stack| - 1];
          stack := stack[..|stack| - 1] + [Frame(top.abre, top.cierra, top.tokens + [grupo])];
        } else {
          grupos := grupos + [grupo];
        }
      } else if token in Openers {
        stack := stack + [Frame(token, CloserOf(token), [])];
      } else {
        if stack != [] {
          var top := stack[|stack| - 1];
          stack := stack[..|stack| - 1] + [Frame(top.abre, top.cierra, top.tokens + [Plain(Unprotected(tokenInfo))])];
        } else {
          grupos := grupos + [Plain(Unprotected(tokenInfo))];
        }
      }
      i := i + 1;
    }
    assert tokensLimpios[..i] == tokensLimpios;
    while stack != []
      invariant Flush(State(grupos, stack)) == Grouped(tokensLimpios, v)
      decreases |stack|
    {
      var bloque := stack[|stack| - 1];
      stack := stack[..|stack| - 1];
      grupos := grupos + [Group(bloque.tokens, bloque.abre, bloque.cierra)];
    }
  }

  /** A segment after grouping: `{**segmento, 'tokens_protegidos': grupos}`. */
  datatype ProtectedLine = ProtectedLine(linea: string, tokensLimpios: seq<Fields>, tokensProtegidos: seq<Node>)

  /** `AgruparProtegidos.procesar`: every segment keeps its fields and gains
      its grouped tokens. */
  method GroupLines(segmentos: seq<Line>, v: Version) returns (resultado: seq<ProtectedLine>)
    requires AllHaveTokenText(segmentos)
    ensures |resultado| == |segmentos|
    ensures forall i :: 0 <= i < |segmentos| ==>
              AllTokenText(segmentos[i].tokensLimpios)
              && resultado[i] == ProtectedLine(segmentos[i].linea, segmentos[i].tokensLimpios,
                                               Grouped(segmentos[i].tokensLimpios, v))
  {
    resultado := [];
    for k := 0 to |segmentos|
      invariant |resultado| == k
      invariant forall i :: 0 <= i < k ==>
                  AllTokenText(segmentos[i].tokensLimpios)
                  && resultado[i] == ProtectedLine(segmentos[i].linea, segmentos[i].tokensLimpios,
                                                   Grouped(segmentos[i].tokensLimpios, v))
    {
      var grupos := GroupTokens(segmentos[k].tokensLimpios, v);
      resultado := resultado + [ProtectedLine(segmentos[k].linea, segmentos[k].tokensLimpios, grupos)];
    }
  }

  // ----- An independent account of what the tree contains -----

  /** What a tree is made of: each unprotected record, and each group's
      pair of delimiters. */
  datatype Label = Leaf(fields: Fields) | Delims(abre: string, cierra: string)

  function Labels(ns: seq<Node>): multiset<Label>
    decreases ns
  {
    if ns == [] then multiset{}
    else
      var last := ns[|ns| - 1];
      Labels(ns[..|ns| - 1]) +
      match last
      case Plain(f) => multiset{Leaf(f)}
      case Group(ch, a, c) => multiset{Delims(a, c)} + Labels(ch)
  }

  function FrameLabels(stack: seq<Frame>): multiset<Label>
  {
    if stack == [] then multiset{}
    else
      var f := stack[|stack| - 1];
      FrameLabels(stack[..|stack| - 1]) + multiset{Delims(f.abre, f.cierra)} + Labels(f.tokens)
  }

  function StateLabels(st: State): multiset<Label>
  {
    Labels(st.grupos) + FrameLabels(st.stack)
  }

  /** The closers the open frames expect, innermost last. */
  function Expecting(stack: seq<Frame>): (p: seq<string>)
    ensures |p| == |stack|
  {
    seq(|stack|, i requires 0 <= i < |stack| => stack[i].cierra)
  }

  /** The reference: the stack of expected closers alone. An opener pushes
      its closer; a token equal to the innermost expected closer pops it. */
  function PendingStep(p: seq<string>, token: string, v: Version): seq<string>
  {
    if p != [] && ClosesTop(token, p[|p| - 1], v) then p[..|p| - 1]
    else if token in Openers then p + [CloserOf(token)]
    else p
  }

  function Pending(ts: seq<Fields>, v: Version): seq<string>
    requires AllTokenText(ts)
  {
    if ts == [] then [] else PendingStep(Pending(ts[..|ts| - 1], v), TokenOf(ts[|ts| - 1]), v)
  }

  /** What one token contributes to the output: a group with its delimiters
      for an opener, nothing for the closer of the innermost frame, and the
      unprotected record for anything else. */
  function Contribution(p: seq<string>, info: Fields, v: Version): multiset<Label>
    requires HasTokenText(info)
  {
    var token := TokenOf(info);
    if p != [] && ClosesTop(token, p[|p| - 1], v) then multiset{}
    else if token in Openers then multiset{Delims(token, CloserOf(token))}
    else multiset{Leaf(Unprotected(info))}
  }

  function Expected(ts: seq<Fields>, v: Version): multiset<Label>
    requires AllTokenText(ts)
  {
    if ts == [] then multiset{}
    else Expected(ts[..|ts| - 1], v) + Contribution(Pending(ts[..|ts| - 1], v), ts[|ts| - 1], v)
  }

  lemma LabelsSnoc(ns: seq<Node>, n: Node)
    ensures Labels(ns + [n]) == Labels(ns) + Labels([n])
  {
    assert (ns + [n])[..|ns|] == ns;
    assert [n][..0] == [];
  }

  lemma FrameLabelsSnoc(stack: seq<Frame>, f: Frame)
    ensures FrameLabels(stack + [f]) == FrameLabels(stack) + multiset{Delims(f.abre, f.cierra)} + Labels(f.tokens)
  {
    assert (stack + [f])[..|stack|] == stack;
  }

  /** Appending a node adds exactly its labels and leaves the open frames'
      closers alone. */
  lemma AppendLabels(st: State, n: Node)
    ensures StateLabels(Append(st, n)) == StateLabels(st) + Labels([n])
    ensures Expecting(Append(st, n).stack) == Expecting(st.stack)
  {
    if st.stack == [] {
      LabelsSnoc(st.grupos, n);
    } else {
      AppendToTopLabels(st, n);
      AppendToTopExpecting(st, n);
    }
  }

  /** A node appended to the innermost frame adds its labels to that frame. */
  lemma AppendToTopLabels(st: State, n: Node)
    requires st.stack != []
    ensures FrameLabels(Append(st, n).stack) == FrameLabels(st.stack) + Labels([n])
  {
    var top := st.stack[|st.stack| - 1];
    var rest := st.stack[..|st.stack| - 1];
    assert st.stack == rest + [top];
    FrameLabelsSnoc(rest, top);
    FrameLabelsSnoc(rest, Frame(top.abre, top.cierra, top.tokens + [n]));
    LabelsSnoc(top.tokens, n);
  }

  /** Appending to the innermost frame keeps every frame's closer. */
  lemma AppendToTopExpecting(st: State, n: Node)
    requires st.stack != []
    ensures Expecting(Append(st, n).stack) == Expecting(st.stack)
  {
    var s2 := Append(st, n).stack;
    assert |s2| == |st.stack|;
    forall i | 0 <= i < |s2| ensures s2[i].cierra == st.stack[i].cierra {
    }
  }

  /** The closer of the innermost frame pops it into a group, which is
      appended where the next token would go; the token itself adds nothing. */
  lemma StepCloses(st: State, info: Fields, v: Version)
    requires HasTokenText(info)
    requires st.stack != [] && ClosesTop(TokenOf(info), st.stack[|st.stack| - 1].cierra, v)
    ensures Expecting(GroupStep(st, info, v).stack) == PendingStep(Expecting(st.stack), TokenOf(info), v)
    ensures StateLabels(GroupStep(st, info, v)) == StateLabels(st) + Contribution(Expecting(st.stack), info, v)
  {
    var p := Expecting(st.stack);
    var top := st.stack[|st.stack| - 1];
    var rest := st.stack[..|st.stack| - 1];
    assert st.stack == rest + [top];
    FrameLabelsSnoc(rest, top);
    var g := Group(top.tokens, top.abre, top.cierra);
    AppendLabels(State(st.grupos, rest), g);
    assert Labels([g]) == multiset{Delims(top.abre, top.cierra)} + Labels(top.tokens) by {
      assert [g][..0] == [];
    }
    assert Expecting(rest) == p[..|p| - 1];
  }

  /** Otherwise an opener pushes a frame expecting its closer, and adds its
      group's delimiters. */
  lemma StepOpens(st: State, info: Fields, v: Version)
    requires HasTokenText(info) && TokenOf(info) in Openers
    requires !(st.stack != [] && ClosesTop(TokenOf(info), st.stack[|st.stack| - 1].cierra, v))
    ensures Expecting(GroupStep(st, info, v).stack) == PendingStep(Expecting(st.stack), TokenOf(info), v)
    ensures StateLabels(GroupStep(st, info, v)) == StateLabels(st) + Contribution(Expecting(st.stack), info, v)
  {
    var token := TokenOf(info);
    FrameLabelsSnoc(st.stack, Frame(token, CloserOf(token), []));
  }

  /** Any other token is appended unprotected. */
  lemma StepKeeps(st: State, info: Fields, v: Version)
    requires HasTokenText(info) && TokenOf(info) !in Openers
    requires !(st.stack != [] && ClosesTop(TokenOf(info), st.stack[|st.stack| - 1].cierra, v))
    ensures Expecting(GroupStep(st, info, v).stack) == PendingStep(Expecting(st.stack), TokenOf(info), v)
    ensures StateLabels(GroupStep(st, info, v)) == StateLabels(st) + Contribution(Expecting(st.stack), info, v)
  {
    var n := Plain(Unprotected(info));
    AppendLabels(st, n);
    assert Labels([n]) == multiset{Leaf(Unprotected(info))} by {
      assert [n][..0] == [];
    }
  }

  /** One token moves the state exactly as it moves the reference: the
      expected closers follow `PendingStep`, and the labels grow by the
      token's contribution. */
  lemma StepLabels(st: State, info: Fields, v: Version)
    requires HasTokenText(info)
    ensures Expecting(GroupStep(st, info, v).stack) == PendingStep(Expecting(st.stack), TokenOf(info), v)
    ensures StateLabels(GroupStep(st, info, v)) == StateLabels(st) + Contribution(Expecting(st.stack), info, v)
  {
    if st.stack != [] && ClosesTop(TokenOf(info), st.stack[|st.stack| - 1].cierra, v) {
      StepCloses(st, info, v);
    } else if TokenOf(info) in Openers {
      StepOpens(st, info, v);
    } else {
      StepKeeps(st, info, v);
    }
  }

  /** After any prefix, the open frames expect exactly the reference's
      closers, and the tree built so far holds exactly the expected labels. */
  lemma {:induction false} FeedMatchesReference(ts: seq<Fields>, v: Version)
    requires AllTokenText(ts)
    ensures Expecting(Feed(ts, v).stack) == Pending(ts, v)
    ensures StateLabels(Feed(ts, v)) == Expected(ts, v)
  {
    if ts != [] {
      FeedMatchesReference(ts[..|ts| - 1], v);
      StepLabels(Feed(ts[..|ts| - 1], v), ts[|ts| - 1], v);
    }
  }

  /** Closing the open frames at the end loses and adds nothing. */
  lemma {:induction false} FlushLabels(st: State)
    ensures Labels(Flush(st)) == StateLabels(st)
    decreases |st.stack|
  {
    if st.stack != [] {
      var top := st.stack[|st.stack| - 1];
      var g := Group(top.tokens, top.abre, top.cierra);
      FlushLabels(State(st.grupos + [g], st.stack[..|st.stack| - 1]));
      CloseTopLabels(st);
    }
  }

  /** Closing the innermost frame into a group moves its labels from the
      stack to the output. */
  lemma CloseTopLabels(st: State)
    requires st.stack != []
    ensures var top := st.stack[|st.stack| - 1];
            StateLabels(State(st.grupos + [Group(top.tokens, top.abre, top.cierra)], st.stack[..|st.stack| - 1]))
            == StateLabels(st)
  {
    var top := st.stack[|st.stack| - 1];
    var rest := st.stack[..|st.stack| - 1];
    var g := Group(top.tokens, top.abre, top.cierra);
    assert st.stack == rest + [top];
    FrameLabelsSnoc(rest, top);
    LabelsSnoc(st.grupos, g);
    assert [g][..0] == [];
  }

  /** In either reading, the output of `agrupar_tokens` holds every input
      token that is neither an opener nor the closer of the innermost open
      frame exactly once, unprotected, and one group with its delimiters per
      opener; nothing else. */
  lemma GroupedContents(ts: seq<Fields>, v: Version)
    requires AllTokenText(ts)
    ensures Labels(Grouped(ts, v)) == Expected(ts, v)
  {
    FeedMatchesReference(ts, v);
    FlushLabels(Feed(ts, v));
  }

  /** Every leaf the reference predicts is an input record marked
      unprotected whose token is not an opener. */
  lemma {:induction false} ExpectedLeaves(ts: seq<Fields>, v: Version)
    requires AllTokenText(ts)
    ensures forall f :: Leaf(f) in Expected(ts, v) ==>
              "protegido" in f && f["protegido"] == PyBool(false) && HasTokenText(f) && TokenOf(f) !in Openers
              && exists i :: 0 <= i < |ts| && f == Unprotected(ts[i])
  {
    if ts != [] {
      var init := ts[..|ts| - 1];
      ExpectedLeaves(init, v);
      forall f | Leaf(f) in Expected(ts, v)
        ensures "protegido" in f && f["protegido"] == PyBool(false) && HasTokenText(f) && TokenOf(f) !in Openers
                && exists i :: 0 <= i < |ts| && f == Unprotected(ts[i])
      {
        if Leaf(f) in Expected(init, v) {
          var i :| 0 <= i < |init| && f == Unprotected(init[i]);
          assert init[i] == ts[i];
        } else {
          assert f == Unprotected(ts[|ts| - 1]);
        }
      }
    }
  }

  /** So in the output tree every unprotected record is an input record with
      `'protegido': False`, and no opener, quotes included, is ever emitted
      as a token. */
  lemma GroupedLeaves(ts: seq<Fields>, v: Version)
    requires AllTokenText(ts)
    ensures forall f :: Leaf(f) in Labels(Grouped(ts, v)) ==>
              "protegido" in f && f["protegido"] == PyBool(false) && HasTokenText(f) && TokenOf(f) !in Openers
              && exists i :: 0 <= i < |ts| && f == Unprotected(ts[i])
  {
    GroupedContents(ts, v);
    ExpectedLeaves(ts, v);
  }

  // ----- The quotes, as written and as intended -----

  predicate IsQuote(token: string)
  {
    token == "\"" || token == "'"
  }

  /** As written, a quote's frame, once open, is never closed by a later
      token: the closer it expects is a quote, and a quote token always
      opens. So the expected closers up to that frame survive any
      continuation. */
  lemma {:induction false} QuoteFrameStays(ts: seq<Fields>, us: seq<Fields>, k: nat)
    requires AllTokenText(ts) && AllTokenText(us)
    requires k < |Pending(ts, AsWritten)| && IsQuote(Pending(ts, AsWritten)[k])
    ensures AllTokenText(ts + us)
    ensures k < |Pending(ts + us, AsWritten)|
    ensures Pending(ts + us, AsWritten)[..k + 1] == Pending(ts, AsWritten)[..k + 1]
    decreases |us|
  {
    TokenTextConcat(ts, us);
    if us == [] {
      assert ts + us == ts;
    } else {
      var vs := us[..|us| - 1];
      assert AllTokenText(vs);
      QuoteFrameStays(ts, vs, k);
      assert ts + us == (ts + vs) + [us[|us| - 1]];
      QuoteFrameStep(ts + vs, us[|us| - 1], k, Pending(ts, AsWritten)[..k + 1]);
    }
  }

  /** One more token keeps the expected closers up to a quote frame. */
  lemma QuoteFrameStep(xs: seq<Fields>, u: Fields, k: nat, pre: seq<string>)
    requires AllTokenText(xs) && HasTokenText(u)
    requires k < |Pending(xs, AsWritten)| && Pending(xs, AsWritten)[..k + 1] == pre && IsQuote(pre[k])
    ensures AllTokenText(xs + [u])
    ensures k < |Pending(xs + [u], AsWritten)| && Pending(xs + [u], AsWritten)[..k + 1] == pre
  {
    TokenTextConcat(xs, [u]);
    assert (xs + [u])[..|xs|] == xs;
    var p := Pending(xs, AsWritten);
    assert p[k] == pre[k];
    QuoteStepKeepsPrefix(p, TokenOf(u), k);
  }

  lemma TokenTextConcat(ts: seq<Fields>, us: seq<Fields>)
    requires AllTokenText(ts) && AllTokenText(us)
    ensures AllTokenText(ts + us)
  {
    forall i | 0 <= i < |ts + us| ensures HasTokenText((ts + us)[i]) {
      if i >= |ts| { assert (ts + us)[i] == us[i - |ts|]; }
    }
  }

  /** As written, one token never pops a frame expecting a quote, nor any
      frame below it. */
  lemma QuoteStepKeepsPrefix(p: seq<string>, token: string, k: nat)
    requires k < |p| && IsQuote(p[k])
    ensures k < |PendingStep(p, token, AsWritten)|
    ensures PendingStep(p, token, AsWritten)[..k + 1] == p[..k + 1]
  {
    if p != [] && ClosesTop(token, p[|p| - 1], AsWritten) {
      assert |p| - 1 != k;
      assert p[..|p| - 1][..k + 1] == p[..k + 1];
    } else if token in Openers {
      assert (p + [CloserOf(token)])[..k + 1] == p[..k + 1];
    }
  }

  /** The counterexample: a word between two quotes. As written, the second
      quote opens a second frame; both stay open to the end and are flushed
      innermost first, so the output is an empty group followed by the group
      holding the word, in the reverse of the input order. */
  lemma QuoteNeverCloses(ts: seq<Fields>)
    requires AllTokenText(ts) && |ts| == 3
    requires TokenOf(ts[0]) == "\"" && TokenOf(ts[2]) == "\""
    requires TokenOf(ts[1]) !in Openers && TokenOf(ts[1]) !in Closers
    ensures Grouped(ts, AsWritten)
            == [Group([], "\"", "\""), Group([Plain(Unprotected(ts[1]))], "\"", "\"")]
  {
    QuoteWordQuoteFeeds(ts);
    TwoQuoteFramesFlush(Plain(Unprotected(ts[1])));
  }

  /** As written, feeding a quote, a word and a quote leaves two quote
      frames open, the word in the outer one. */
  lemma QuoteWordQuoteFeeds(ts: seq<Fields>)
    requires AllTokenText(ts) && |ts| == 3
    requires TokenOf(ts[0]) == "\"" && TokenOf(ts[2]) == "\""
    requires TokenOf(ts[1]) !in Openers && TokenOf(ts[1]) !in Closers
    ensures Feed(ts, AsWritten)
            == State([], [Frame("\"", "\"", [Plain(Unprotected(ts[1]))]), Frame("\"", "\"", [])])
  {
    var q := "\"";
    var n := Plain(Unprotected(ts[1]));
    assert ts[..1][..0] == [] && ts[..1][0] == ts[0];
    assert CloserOf(q) == q;
    var s1 := State([], [Frame(q, q, [])]);
    assert Feed(ts[..1], AsWritten) == GroupStep(State([], []), ts[0], AsWritten) == s1;
    assert ts[..2][..1] == ts[..1] && ts[..2][1] == ts[1];
    var s2 := State([], [Frame(q, q, [n])]);
    assert !ClosesTop(TokenOf(ts[1]), q, AsWritten);
    assert s1.stack[..0] == [] && [] + [n] == [n];
    assert Feed(ts[..2], AsWritten) == GroupStep(s1, ts[1], AsWritten) == s2;
    assert ts[..2] == ts[..3][..2] && ts[..3] == ts;
    assert Feed(ts, AsWritten) == GroupStep(s2, ts[2], AsWritten);
  }

  /** Flushing two open quote frames emits the inner one first. */
  lemma TwoQuoteFramesFlush(n: Node)
    ensures Flush(State([], [Frame("\"", "\"", [n]), Frame("\"", "\"", [])]))
            == [Group([], "\"", "\""), Group([n], "\"", "\"")]
  {
    var q := "\"";
    var s2 := State([], [Frame(q, q, [n])]);
    var s3 := State([], [Frame(q, q, [n]), Frame(q, q, [])]);
    var g1 := Group([], q, q);
    var g2 := Group([n], q, q);
    assert s3.stack[..1] == s2.stack && [] + [g1] == [g1];
    assert Flush(s3) == Flush(State([g1], s2.stack));
    assert s2.stack[..0] == [];
    assert Flush(State([g1], s2.stack)) == Flush(State([g1, g2], []));
  }

  /** The records of `ts`, each marked unprotected, in order. */
  function Plains(ts: seq<Fields>): (r: seq<Node>)
    ensures |r| == |ts|
  {
    seq(|ts|, i requires 0 <= i < |ts| => Plain(Unprotected(ts[i])))
  }

  predicate NoDelimiters(ts: seq<Fields>)
    requires AllTokenText(ts)
  {
    forall i :: 0 <= i < |ts| ==> TokenOf(ts[i]) !in Openers && TokenOf(ts[i]) !in Closers
  }

  /** As intended, after an opening quote and a run of ordinary tokens the
      quote's frame is open and holds the run. */
  lemma {:induction false} QuotedRunFeeds(a: Fields, ts: seq<Fields>)
    requires HasTokenText(a) && IsQuote(TokenOf(a))
    requires AllTokenText(ts) && NoDelimiters(ts)
    ensures AllTokenText([a] + ts)
    ensures Feed([a] + ts, Intended) == State([], [Frame(TokenOf(a), TokenOf(a), Plains(ts))])
    decreases |ts|
  {
    var xs := [a] + ts;
    assert AllTokenText(xs) by {
      forall i | 0 <= i < |xs| ensures HasTokenText(xs[i]) {
        if i > 0 { assert xs[i] == ts[i - 1]; }
      }
    }
    if ts == [] {
      assert xs[..0] == [];
    } else {
      var init := ts[..|ts| - 1];
      assert NoDelimiters(init) by {
        forall i | 0 <= i < |init| ensures TokenOf(init[i]) !in Openers && TokenOf(init[i]) !in Closers {
          assert init[i] == ts[i];
        }
      }
      QuotedRunFeeds(a, init);
      assert xs[..|xs| - 1] == [a] + init;
      assert xs[|xs| - 1] == ts[|ts| - 1];
      assert Plains(init) + [Plain(Unprotected(ts[|ts| - 1]))] == Plains(ts);
    }
  }

  /** The intended property: a run of ordinary tokens between two equal
      quotes becomes exactly one protected group holding the run, delimited
      by that quote. */
  lemma QuotedRunCloses(a: Fields, ts: seq<Fields>, b: Fields)
    requires HasTokenText(a) && IsQuote(TokenOf(a)) && HasTokenText(b) && TokenOf(b) == TokenOf(a)
    requires AllTokenText(ts) && NoDelimiters(ts)
    ensures AllTokenText([a] + ts + [b])
    ensures Grouped([a] + ts + [b], Intended) == [Group(Plains(ts), TokenOf(a), TokenOf(a))]
  {
    QuotedRunFeeds(a, ts);
    var xs := [a] + ts + [b];
    assert AllTokenText(xs) by {
      forall i | 0 <= i < |xs| ensures HasTokenText(xs[i]) {
        if i < |xs| - 1 { assert xs[i] == ([a] + ts)[i]; }
      }
    }
    assert xs[..|xs| - 1] == [a] + ts;
  }
}
