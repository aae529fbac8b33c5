/** The Python string operations the pipeline relies on, over `seq<char>`:
    `str.strip()`, `str.lstrip(c)`, `str.lower()`, `startswith`/`endswith`,
    `" ".join(...)` and `str.replace(old, new)`. */
module Text {

  /** `str.isspace()` for one character: the characters Python's `strip()`
      removes when called without an argument. */
  predicate IsSpace(c: char)
  {
    c == ' ' || ('\t' <= c <= '\r') || ('\U{1C}' <= c <= '\U{1F}')
    || c == '\U{85}' || c == '\U{A0}' || c == '\U{1680}'
    || ('\U{2000}' <= c <= '\U{200A}') || c == '\U{2028}' || c == '\U{2029}'
    || c == '\U{202F}' || c == '\U{205F}' || c == '\U{3000}'
  }

  /** `not s.strip()`: the string is empty or only whitespace. */
  predicate IsBlank(s: string)
  {
    forall i :: 0 <= i < |s| ==> IsSpace(s[i])
  }

  predicate StartsWith(s: string, p: string)
  {
    |p| <= |s| && s[..|p|] == p
  }

  predicate EndsWith(s: string, p: string)
  {
    |p| <= |s| && s[|s| - |p|..] == p
  }

  /** Removes the longest prefix whose characters all satisfy `drop`. */
  function TrimStartBy(s: string, drop: char -> bool): (r: string)
    ensures |r| <= |s|
    decreases |s|
  {
    if |s| > 0 && drop(s[0]) then TrimStartBy(s[1..], drop) else s
  }

  /** What `lstrip` leaves is a suffix of the input that does not start
      with a dropped character, and everything cut off is dropped. */
  lemma {:induction false} TrimStartSpec(s: string, drop: char -> bool)
    ensures var r := TrimStartBy(s, drop);
      r == s[|s| - |r|..] && (r == [] || !drop(r[0]))
      && forall i :: 0 <= i < |s| - |r| ==> drop(s[i])
    decreases |s|
  {
    if |s| > 0 && drop(s[0]) {
      TrimStartSpec(s[1..], drop);
      var r := TrimStartBy(s, drop);
      forall i | 0 <= i < |s| - |r| ensures drop(s[i]) {
        if i > 0 {
          assert s[i] == s[1..][i - 1];
        }
      }
    }
  }

  /** Removes the longest suffix whose characters all satisfy `drop`. */
  function TrimEndBy(s: string, drop: char -> bool): (r: string)
    ensures |r| <= |s|
    decreases |s|
  {
    if |s| > 0 && drop(s[|s| - 1]) then TrimEndBy(s[..|s| - 1], drop) else s
  }

  /** What `rstrip` leaves is a prefix of the input that does not end with
      a dropped character, and everything cut off is dropped. */
  lemma {:induction false} TrimEndSpec(s: string, drop: char -> bool)
    ensures var r := TrimEndBy(s, drop);
      r == s[..|r|] && (r == [] || !drop(r[|r| - 1]))
      && forall i :: |r| <= i < |s| ==> drop(s[i])
    decreases |s|
  {
    if |s| > 0 && drop(s[|s| - 1]) {
      TrimEndSpec(s[..|s| - 1], drop);
      var r := TrimEndBy(s, drop);
      forall i | |r| <= i < |s| ensures drop(s[i]) {
        if i < |s| - 1 {
          assert s[i] == s[..|s| - 1][i];
        }
      }
    }
  }

  /** `s.strip()`. */
  function Strip(s: string): (r: string)
  {
    TrimEndBy(TrimStartBy(s, IsSpace), IsSpace)
  }

  /** `r` is what `s.strip()` leaves: the slice of `s` starting where its
      leading whitespace ends, neither starting nor ending with whitespace,
      with only whitespace cut off on either side; it is empty exactly when
      `s` is blank. */
  predicate StrippedFrom(s: string, r: string)
  {
    StrippedAt(s, |s| - |TrimStartBy(s, IsSpace)|, r)
  }

  /** `r` is the slice of `s` starting at `a`, with only whitespace around
      it and none at either of its ends. */
  predicate StrippedAt(s: string, a: int, r: string)
  {
    0 <= a && a + |r| <= |s|
    && (forall i :: 0 <= i < |r| ==> r[i] == s[a + i])
    && (forall i :: 0 <= i < a ==> IsSpace(s[i]))
    && (forall i :: a + |r| <= i < |s| ==> IsSpace(s[i]))
    && (r != [] ==> !IsSpace(r[0]) && !IsSpace(r[|r| - 1]))
    && (r == [] <==> IsBlank(s))
  }

  lemma StripSpec(s: string)
    ensures StrippedFrom(s, Strip(s))
  {
    var t := TrimStartBy(s, IsSpace);
    var r := TrimEndBy(t, IsSpace);
    TrimStartSpec(s, IsSpace);
    TrimEndSpec(t, IsSpace);
    assert forall i :: 0 <= i < |s| - |t| ==> IsSpace(s[i]);
    assert forall i :: |r| <= i < |t| ==> IsSpace(t[i]);
    TrimmedBothEnds(s, t, r);
  }

  /** Cutting the leading whitespace off `s` to get `t`, then the trailing
      whitespace off `t` to get `r`, leaves `r` stripped from `s`. */
  lemma TrimmedBothEnds(s: string, t: string, r: string)
    requires |t| <= |s| && t == s[|s| - |t|..]
    requires t == [] || !IsSpace(t[0])
    requires forall i :: 0 <= i < |s| - |t| ==> IsSpace(s[i])
    requires |r| <= |t| && r == t[..|r|]
    requires r == [] || !IsSpace(r[|r| - 1])
    requires forall i :: |r| <= i < |t| ==> IsSpace(t[i])
    ensures StrippedAt(s, |s| - |t|, r)
  {
    var a := |s| - |t|;
    forall i | a + |r| <= i < |s| ensures IsSpace(s[i]) {
      assert s[i] == t[i - a];
    }
    forall i | 0 <= i < |r| ensures r[i] == s[a + i] {
      assert r[i] == t[i];
    }
    if r != [] {
      assert r[0] == t[0] == s[a];
      assert !IsBlank(s);
    } else {
      assert t == [];
      assert IsBlank(s);
    }
  }

  /** `str.lower()` on one character, for ASCII and the Latin-1 letters. */
  function LowerChar(c: char): (r: char)
    ensures ('A' <= c <= 'Z') ==> r == (c as int + 32) as char
    ensures !('A' <= c <= 'Z') && !('À' <= c <= 'Þ') ==> r == c
  {
    if ('A' <= c <= 'Z') || ('À' <= c <= 'Þ' && c != '×') then (c as int + 32) as char else c
  }

  function Lower(s: string): (r: string)
    ensures |r| == |s|
    ensures forall i :: 0 <= i < |s| ==> r[i] == LowerChar(s[i])
  {
    seq(|s|, i requires 0 <= i < |s| => LowerChar(s[i]))
  }

  /** `sep.join(ws)`. */
  function Join(ws: seq<string>, sep: string): (r: string)
    decreases |ws|
  {
    if |ws| == 0 then "" else if |ws| == 1 then ws[0] else ws[0] + sep + Join(ws[1..], sep)
  }

  /** Every character of a join comes from one of the parts or from the
      separator. */
  lemma {:induction false} JoinChars(ws: seq<string>, sep: string, ok: char -> bool)
    requires forall w, i :: w in ws && 0 <= i < |w| ==> ok(w[i])
    requires forall i :: 0 <= i < |sep| ==> ok(sep[i])
    ensures forall i :: 0 <= i < |Join(ws, sep)| ==> ok(Join(ws, sep)[i])
    decreases |ws|
  {
    if |ws| > 1 {
      JoinChars(ws[1..], sep, ok);
      var tail := Join(ws[1..], sep);
      forall i | 0 <= i < |Join(ws, sep)| ensures ok(Join(ws, sep)[i]) {
        if i < |ws[0]| {
          assert Join(ws, sep)[i] == ws[0][i];
        } else if i < |ws[0]| + |sep| {
          assert Join(ws, sep)[i] == sep[i - |ws[0]|];
        } else {
          assert Join(ws, sep)[i] == tail[i - |ws[0]| - |sep|];
        }
      }
    }
  }

  /** A join of non-empty parts starts with the first part's first character
      and ends with the last part's last character. */
  lemma {:induction false} JoinEnds(ws: seq<string>, sep: string)
    requires |ws| > 0 && forall w :: w in ws ==> |w| > 0
    ensures |Join(ws, sep)| > 0
    ensures Join(ws, sep)[0] == ws[0][0]
    ensures Join(ws, sep)[|Join(ws, sep)| - 1] == ws[|ws| - 1][|ws[|ws| - 1]| - 1]
    decreases |ws|
  {
    if |ws| > 1 {
      var tail := ws[1..];
      assert forall w :: w in tail ==> w in ws;
      JoinEnds(tail, sep);
      var rest := Join(tail, sep);
      var whole := Join(ws, sep);
      assert whole == ws[0] + sep + rest;
      assert whole[0] == ws[0][0];
      assert whole[|whole| - 1] == rest[|rest| - 1];
      assert tail[|tail| - 1] == ws[|ws| - 1];
    }
  }

  /** `s.replace(pat, rep)`: every non-overlapping occurrence of `pat`,
      scanning from the left, is replaced by `rep`. */
  function Replace(s: string, pat: string, rep: string): (r: string)
    requires |pat| > 0
    decreases |s|
  {
    if |s| < |pat| then s
    else if StartsWith(s, pat) then rep + Replace(s[|pat|..], pat, rep)
    else [s[0]] + Replace(s[1..], pat, rep)
  }

  /** A reference for replacing one character, built from the other end:
      every `c` of `s` becomes `rep`, and every other character is kept,
      in order. */
  function SpellChar(s: string, c: char, rep: string): string
    decreases |s|
  {
    if s == [] then []
    else SpellChar(s[..|s| - 1], c, rep) + (if s[|s| - 1] == c then rep else [s[|s| - 1]])
  }

  /** Replacing a one-character pattern distributes over a character
      appended to the input. */
  lemma {:induction false} ReplaceSnoc(s: string, c: char, rep: string, x: char)
    ensures Replace(s + [x], [c], rep) == Replace(s, [c], rep) + (if x == c then rep else [x])
    decreases |s|
  {
    var sx := s + [x];
    if s == [] {
      assert sx == [x];
      assert StartsWith(sx, [c]) <==> x == c;
      assert sx[1..] == [];
    } else {
      assert sx[1..] == s[1..] + [x];
      assert sx[..1] == [s[0]] && s[..1] == [s[0]];
      ReplaceSnoc(s[1..], c, rep, x);
    }
  }

  /** `str.replace` with a one-character pattern agrees with the
      reference: each occurrence is spelled as `rep` and the rest is kept. */
  lemma {:induction false} ReplaceCharSpells(s: string, c: char, rep: string)
    ensures Replace(s, [c], rep) == SpellChar(s, c, rep)
    decreases |s|
  {
    if s != [] {
      var init := s[..|s| - 1];
      ReplaceCharSpells(init, c, rep);
      ReplaceSnoc(init, c, rep, s[|s| - 1]);
      assert init + [s[|s| - 1]] == s;
    }
  }

  /** Replacing a one-character pattern by text that does not contain it
      leaves no occurrence of that character. */
  lemma {:induction false} ReplaceCharRemovesIt(s: string, c: char, rep: string)
    requires c !in rep
    ensures c !in Replace(s, [c], rep)
    decreases |s|
  {
    if |s| >= 1 {
      ReplaceCharRemovesIt(s[1..], c, rep);
    }
  }

  /** A character absent from the input and from the replacement is absent
      from the result. */
  lemma {:induction false} ReplaceKeepsAbsent(s: string, pat: string, rep: string, c: char)
    requires |pat| > 0 && c !in s && c !in rep
    ensures c !in Replace(s, pat, rep)
    decreases |s|
  {
    if |s| >= |pat| {
      if StartsWith(s, pat) {
        ReplaceKeepsAbsent(s[|pat|..], pat, rep, c);
      } else {
        ReplaceKeepsAbsent(s[1..], pat, rep, c);
      }
    }
  }

  /** A character present in the input, absent from the pattern, survives. */
  lemma {:induction false} ReplaceKeepsPresent(s: string, pat: string, rep: string, c: char)
    requires |pat| > 0 && c in s && c !in pat
    ensures c in Replace(s, pat, rep)
    decreases |s|
  {
    if |s| < |pat| {
    } else if StartsWith(s, pat) {
      assert s == pat + s[|pat|..];
      ReplaceKeepsPresent(s[|pat|..], pat, rep, c);
    } else if s[0] != c {
      assert s == [s[0]] + s[1..];
      ReplaceKeepsPresent(s[1..], pat, rep, c);
    }
  }
}
