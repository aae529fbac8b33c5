/** Spelling out programming symbols before speech synthesis:
    `ExpansionToken.expandir` (`convertor_audio/expandir_tokens.py`, also
    behind `expand_for_gtts` and `expand_for_pyttsx3`) and the older
    `expand_token` nested in `generaraudio_gtts` (`Convetir_Texto_Audio.py`).
    The two differ on a `+` left over after the `++` rule. */
module TokenExpansion {
  import opened Text

  /** `'++' in s`. */
  predicate HasDoublePlus(s: string)
  {
    exists i :: 0 <= i < |s| - 1 && s[i] == '+' && s[i + 1] == '+'
  }

  const PlusPlus: string := " plus plus"
  const Plus: string := " plus"
  const Sharp: string := " sharp"

  /** `ExpansionToken.expandir`: the first rule that applies, in the order
      `++`, `+`, `#`. */
  function Expand(token: string): (r: string)
    ensures !HasDoublePlus(token) && '+' !in token && '#' !in token ==> r == token
    ensures HasDoublePlus(token) ==>
              var k := FirstPair(token);
              r == token[..k] + PlusPlus + Replace(token[k + 2..], "++", PlusPlus)
    ensures !HasDoublePlus(token) && '+' in token ==> r == SpellChar(token, '+', Plus)
    ensures '+' !in token && '#' in token ==> r == SpellChar(token, '#', Sharp)
  {
    if HasDoublePlus(token) then
      ReplaceAtFirstPair(token, PlusPlus);
      Replace(token, "++", PlusPlus)
    else if '+' in token then
      ReplaceCharSpells(token, '+', Plus);
      Replace(token, "+", Plus)
    else if '#' in token then
      ReplaceCharSpells(token, '#', Sharp);
      Replace(token, "#", Sharp)
    else token
  }

  /** `expand_token`: with any `+`, both replacements run in turn; otherwise
      `#` is spelled out. */
  function ExpandToken(token: string): (r: string)
    ensures '+' !in token && '#' !in token ==> r == token
    ensures '+' in token ==> r == SpellChar(Replace(token, "++", PlusPlus), '+', Plus)
    ensures '+' !in token && '#' in token ==> r == SpellChar(token, '#', Sharp)
  {
    if '+' in token then
      ReplaceCharSpells(Replace(token, "++", PlusPlus), '+', Plus);
      Replace(Replace(token, "++", PlusPlus), "+", Plus)
    else if '#' in token then
      ReplaceCharSpells(token, '#', Sharp);
      Replace(token, "#", Sharp)
    else token
  }

  /** The index of the leftmost `++`. */
  function FirstPair(s: string): (k: nat)
    requires HasDoublePlus(s)
    ensures k + 1 < |s| && s[k] == '+' && s[k + 1] == '+'
    ensures forall j :: 0 <= j < k ==> !(s[j] == '+' && s[j + 1] == '+')
    decreases |s|
  {
    if s[0] == '+' && s[1] == '+' then 0
    else
      PairInTail(s);
      FirstPair(s[1..]) + 1
  }

  /** A `++` that does not start at index 0 is a `++` of the tail. */
  lemma PairInTail(s: string)
    requires HasDoublePlus(s) && !(s[0] == '+' && s[1] == '+')
    ensures HasDoublePlus(s[1..])
  {
    var i :| 0 <= i < |s| - 1 && s[i] == '+' && s[i + 1] == '+';
    assert s[1..][i - 1] == s[i] && s[1..][i] == s[i + 1];
  }

  /** The `++` rule keeps everything before the leftmost `++`, spells that
      pair as `rep`, and goes on after it. */
  lemma ReplaceAtFirstPair(s: string, rep: string)
    requires HasDoublePlus(s)
    ensures var k := FirstPair(s);
            Replace(s, "++", rep) == s[..k] + rep + Replace(s[k + 2..], "++", rep)
  {
    ReplaceBeforePair(s, FirstPair(s), rep);
  }

  /** No `++` starts before `k`. */
  predicate NoPairBefore(s: string, k: nat)
    requires k <= |s|
  {
    forall j :: 0 <= j < k && j + 1 < |s| ==> !(s[j] == '+' && s[j + 1] == '+')
  }

  /** `++` at `k` with none before it: the text before `k` is kept. */
  lemma {:induction false} ReplaceBeforePair(s: string, k: nat, rep: string)
    requires k + 1 < |s| && s[k] == '+' && s[k + 1] == '+'
    requires NoPairBefore(s, k)
    ensures Replace(s, "++", rep) == s[..k] + rep + Replace(s[k + 2..], "++", rep)
    decreases k
  {
    if k == 0 {
      assert s[..2] == "++";
    } else {
      var t := s[1..];
      assert !StartsWith(s, "++") by {
        assert !(s[0] == '+' && s[1] == '+');
        assert !(s[..2][0] == '+' && s[..2][1] == '+');
      }
      assert Replace(s, "++", rep) == [s[0]] + Replace(t, "++", rep);
      assert NoPairBefore(t, k - 1) by {
        forall j | 0 <= j < k - 1 && j + 1 < |t| ensures !(t[j] == '+' && t[j + 1] == '+') {
          assert t[j] == s[j + 1] && t[j + 1] == s[j + 2];
        }
      }
      ReplaceBeforePair(t, k - 1, rep);
      assert t[k + 1..] == s[k + 2..];
      assert s[..k] == [s[0]] + t[..k - 1];
    }
  }

  /** A pattern that does not occur is not replaced. */
  lemma {:induction false} ReplacePairAbsent(s: string)
    requires !HasDoublePlus(s)
    ensures Replace(s, "++", PlusPlus) == s
    decreases |s|
  {
    if |s| >= 2 {
      forall i | 0 <= i < |s[1..]| - 1 ensures !(s[1..][i] == '+' && s[1..][i + 1] == '+') {
        assert s[1..][i] == s[i + 1] && s[1..][i + 1] == s[i + 2];
      }
      ReplacePairAbsent(s[1..]);
      assert s[..2] != "++" by { assert !(s[0] == '+' && s[1] == '+'); }
    }
  }

  /** After the `++` rule no `++` is left, and the result starts with a
      `+` only where the input did and did not start with `++`. */
  lemma {:induction false} ReplacePairLeavesNoPair(s: string)
    ensures var r := Replace(s, "++", PlusPlus);
            !HasDoublePlus(r) && (|r| > 0 && r[0] == '+' ==> |s| > 0 && s[0] == '+' && !StartsWith(s, "++"))
    decreases |s|
  {
    var r := Replace(s, "++", PlusPlus);
    if |s| < 2 {
      assert r == s;
    } else if StartsWith(s, "++") {
      var rest := Replace(s[2..], "++", PlusPlus);
      ReplacePairLeavesNoPair(s[2..]);
      assert r == PlusPlus + rest;
      forall i | 0 <= i < |r| - 1 ensures !(r[i] == '+' && r[i + 1] == '+') {
        if i < |PlusPlus| {
          assert r[i] == PlusPlus[i];
        } else {
          assert r[i] == rest[i - |PlusPlus|] && r[i + 1] == rest[i - |PlusPlus| + 1];
        }
      }
    } else {
      var rest := Replace(s[1..], "++", PlusPlus);
      ReplacePairLeavesNoPair(s[1..]);
      assert r == [s[0]] + rest;
      forall i | 0 <= i < |r| - 1 ensures !(r[i] == '+' && r[i + 1] == '+') {
        if i == 0 {
          assert s[..2] != "++";
          assert s[0] == '+' ==> s[1] != '+';
          assert s[1..][0] == s[1];
        } else {
          assert r[i] == rest[i - 1] && r[i + 1] == rest[i];
        }
      }
    }
  }

  /** The three rules of `expandir` and their exclusive priority: the `++`
      rule leaves no `++`, the `+` rule leaves no `+`, the `#` rule leaves no
      `#`, and a `#` next to a `+` is kept, as in `C+#`. */
  lemma ExpandRules(token: string)
    ensures HasDoublePlus(token) ==> !HasDoublePlus(Expand(token))
    ensures !HasDoublePlus(token) && '+' in token ==> '+' !in Expand(token)
    ensures '+' !in token && '#' in token ==> '#' !in Expand(token)
    ensures '+' in token && '#' in token ==> '#' in Expand(token)
  {
    if HasDoublePlus(token) {
      ReplacePairLeavesNoPair(token);
      if '#' in token { ReplaceKeepsPresent(token, "++", PlusPlus, '#'); }
    } else if '+' in token {
      ReplaceCharRemovesIt(token, '+', Plus);
      if '#' in token { ReplaceKeepsPresent(token, "+", Plus, '#'); }
    } else if '#' in token {
      ReplaceCharRemovesIt(token, '#', Sharp);
    }
  }

  /** `expand_token` removes every `+`, and every `#` when there was no `+`. */
  lemma ExpandTokenRules(token: string)
    ensures '+' !in ExpandToken(token)
    ensures '+' !in token ==> '#' !in ExpandToken(token)
  {
    if '+' in token {
      ReplaceCharRemovesIt(Replace(token, "++", PlusPlus), '+', Plus);
    } else if '#' in token {
      ReplaceCharRemovesIt(token, '#', Sharp);
      ReplaceKeepsAbsent(token, "#", Sharp, '+');
    } else {
      assert ExpandToken(token) == token;
    }
  }

  /** The two expanders agree on every token without `++`. */
  lemma ExpandersAgree(token: string)
    requires !HasDoublePlus(token)
    ensures Expand(token) == ExpandToken(token)
  {
    ReplacePairAbsent(token);
  }

  /** On `C+++` they differ: `expandir` stops after the `++` rule and keeps
      the third `+`; `expand_token` spells it out too. */
  lemma ExpandersDiffer(token: string)
    requires token == "C+++"
    ensures Expand(token) == "C plus plus+"
    ensures ExpandToken(token) == "C plus plus plus"
  {
    assert HasDoublePlus(token) by { assert token[1] == '+' && token[2] == '+'; }
    assert '+' in token by { assert token[1] == '+'; }
    TriplePlusPair(token);
    SpellLastPlus("C plus plus+");
  }

  /** The `++` rule on `C+++` replaces the first pair only. */
  lemma TriplePlusPair(token: string)
    requires token == "C+++"
    ensures Replace(token, "++", PlusPlus) == "C plus plus+"
  {
    assert token[..2] != "++" by { assert token[..2][0] == 'C'; }
    var tail := token[1..];
    assert tail == "+++";
    assert tail[..2] == "++" && tail[2..] == "+";
    assert Replace(tail, "++", PlusPlus) == PlusPlus + "+";
  }

  /** The `+` rule on what the `++` rule left spells out the last `+`. */
  lemma SpellLastPlus(mid: string)
    requires mid == "C plus plus+"
    ensures Replace(mid, "+", Plus) == "C plus plus plus"
  {
    assert '+' !in mid[..11];
    ReplaceNoChar(mid[..11], '+', Plus);
    ReplaceSplitsAtLast(mid, Plus);
  }

  /** A string without the character is left unchanged. */
  lemma {:induction false} ReplaceNoChar(s: string, c: char, rep: string)
    requires c !in s
    ensures Replace(s, [c], rep) == s
    decreases |s|
  {
    if |s| >= 1 {
      ReplaceNoChar(s[1..], c, rep);
      assert s[..1] == [s[0]];
      assert s == [s[0]] + s[1..];
    }
  }

  /** A string ending in a `+` with none before it has only that one
      replaced. */
  lemma ReplaceSplitsAtLast(s: string, rep: string)
    requires |s| > 0 && s[|s| - 1] == '+'
    requires Replace(s[..|s| - 1], "+", rep) == s[..|s| - 1]
    requires '+' !in s[..|s| - 1]
    ensures Replace(s, "+", rep) == s[..|s| - 1] + rep
  {
    ReplaceSnoc(s[..|s| - 1], '+', rep, '+');
    assert s == s[..|s| - 1] + "+";
  }

  /** The text `generaraudio_gtts` hands to the engine: the block's words,
      each passed through `expand_token`, joined by spaces. No `+` reaches
      the engine. */
  function SpokenText(palabras: seq<string>): (r: string)
    ensures '+' !in r
  {
    var expandidas := seq(|palabras|, i requires 0 <= i < |palabras| => ExpandToken(palabras[i]));
    forall w | w in expandidas ensures '+' !in w {
      var i :| 0 <= i < |expandidas| && expandidas[i] == w;
      ExpandTokenRules(palabras[i]);
    }
    JoinChars(expandidas, " ", c => c != '+');
    Join(expandidas, " ")
  }
}
