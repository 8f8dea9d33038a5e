/**
 * Text primitives used by the scorer: Python's `str.lower()` on ASCII,
 * substring search (`sub in s`), `str.split()` with no argument,
 * `' '.join(...)`, and the normaliser `clean_text`.
 */
module Text {

  /** The characters `str.split()` (no argument) splits on. */
  predicate IsSpace(c: char) {
    || '\t' <= c <= '\r'
    || '\U{1C}' <= c <= ' '
    || c == '\U{85}' || c == '\U{A0}' || c == '\U{1680}'
    || '\U{2000}' <= c <= '\U{200A}'
    || c == '\U{2028}' || c == '\U{2029}' || c == '\U{202F}'
    || c == '\U{205F}' || c == '\U{3000}'
  }

  /** The characters the pattern `[^a-zA-Z0-9 ]+` does not remove. */
  predicate IsKept(c: char) {
    'a' <= c <= 'z' || 'A' <= c <= 'Z' || '0' <= c <= '9' || c == ' '
  }

  /** The characters a normalised text is made of. */
  predicate IsCleanChar(c: char) {
    'a' <= c <= 'z' || '0' <= c <= '9' || c == ' '
  }

  function LowerChar(c: char): char {
    if 'A' <= c <= 'Z' then (c as int + 32) as char else c
  }

  /** `s.lower()`, restricted to the ASCII letters. */
  function Lower(s: string): (r: string)
    ensures |r| == |s|
    ensures forall i :: 0 <= i < |s| ==> r[i] == LowerChar(s[i])
    ensures forall i :: 0 <= i < |r| ==> !('A' <= r[i] <= 'Z')
    ensures forall i :: 0 <= i < |s| && !('A' <= s[i] <= 'Z') ==> r[i] == s[i]
    ensures forall i :: 0 <= i < |s| && 'A' <= s[i] <= 'Z' ==> r[i] as int == s[i] as int + 32
  {
    seq(|s|, i requires 0 <= i < |s| => LowerChar(s[i]))
  }

  lemma LowerIdempotent(s: string)
    ensures Lower(Lower(s)) == Lower(s)
  {
  }

  // ---------------------------------------------------------------- substrings

  predicate IsPrefix(p: string, s: string) {
    |p| <= |s| && s[..|p|] == p
  }

  /** Python's `sub in s`: some window of `s` equals `sub` (the empty string is in every string). */
  predicate Contains(s: string, sub: string)
    decreases |s|
  {
    IsPrefix(sub, s) || (s != [] && Contains(s[1..], sub))
  }

  /** `sub` occurs in `s` starting at index `i`. */
  predicate OccursAt(s: string, sub: string, i: int) {
    0 <= i <= |s| - |sub| && s[i..i + |sub|] == sub
  }

  /** The search above finds `sub` exactly when some window of `s` equals it. */
  lemma {:induction false} ContainsIff(s: string, sub: string)
    ensures Contains(s, sub) <==> exists i :: OccursAt(s, sub, i)
    decreases |s|
  {
    if s == [] {
      if IsPrefix(sub, s) {
        assert OccursAt(s, sub, 0);
      }
      if exists i :: OccursAt(s, sub, i) {
        var i :| OccursAt(s, sub, i);
        assert i == 0 && IsPrefix(sub, s);
      }
    } else {
      ContainsIff(s[1..], sub);
      if IsPrefix(sub, s) {
        assert OccursAt(s, sub, 0);
      }
      if Contains(s[1..], sub) {
        var i :| OccursAt(s[1..], sub, i);
        assert s[1..][i..i + |sub|] == s[i + 1..i + 1 + |sub|];
        assert OccursAt(s, sub, i + 1);
      }
      if exists i :: OccursAt(s, sub, i) {
        var i :| OccursAt(s, sub, i);
        if i == 0 {
          assert IsPrefix(sub, s);
        } else {
          assert s[1..][i - 1..i - 1 + |sub|] == s[i..i + |sub|];
          assert OccursAt(s[1..], sub, i - 1);
        }
      }
    }
  }

  /** A text that contains `t` contains every prefix of `t`. */
  lemma ContainsPrefix(s: string, t: string, p: string)
    requires Contains(s, t) && IsPrefix(p, t)
    ensures Contains(s, p)
  {
    ContainsIff(s, t);
    var i :| OccursAt(s, t, i);
    assert s[i..i + |p|] == t[..|p|];
    assert OccursAt(s, p, i);
    ContainsIff(s, p);
  }

  // ---------------------------------------------------------------- splitting

  /** A token of `str.split()`: non-empty and free of whitespace. */
  predicate IsWord(w: string) {
    w != [] && forall c :: c in w ==> !IsSpace(c)
  }

  /** Length of the longest whitespace-free prefix of `s`. */
  function WordLength(s: string): (n: nat)
    ensures n <= |s|
    ensures forall i :: 0 <= i < n ==> !IsSpace(s[i])
    ensures n < |s| ==> IsSpace(s[n])
  {
    if s == [] || IsSpace(s[0]) then 0 else 1 + WordLength(s[1..])
  }

  /** `s.split()`: the maximal runs of non-whitespace characters, in order. */
  function SplitWords(s: string): (ws: seq<string>)
    ensures forall i :: 0 <= i < |ws| ==> IsWord(ws[i])
    ensures forall i, c :: 0 <= i < |ws| && c in ws[i] ==> c in s
    decreases |s|
  {
    if s == [] then []
    else if IsSpace(s[0]) then
      assert forall c :: c in s[1..] ==> c in s;
      SplitWords(s[1..])
    else
      var n := WordLength(s);
      assert forall c :: c in s[..n] ==> c in s;
      assert forall c :: c in s[n..] ==> c in s;
      [s[..n]] + SplitWords(s[n..])
  }

  /** The words, written one after the other, are exactly the text's non-whitespace characters in order. */
  lemma {:induction false} SplitWordsCover(s: string)
    ensures Concat(SplitWords(s)) == NonSpace(s)
    decreases |s|
  {
    if s != [] {
      if IsSpace(s[0]) {
        SplitWordsCover(s[1..]);
      } else {
        var n := WordLength(s);
        var rest := SplitWords(s[n..]);
        SplitWordsCover(s[n..]);
        var ws := [s[..n]] + rest;
        assert SplitWords(s) == ws;
        assert ws[0] == s[..n] && ws[1..] == rest;
        assert s == s[..n] + s[n..];
        NonSpaceAppend(s[..n], s[n..]);
        NonSpaceOfWord(s[..n]);
      }
    }
  }

  /** `len(s.split())` is the number of indices that begin a word. */
  lemma {:induction false} SplitWordsCount(s: string)
    ensures |SplitWords(s)| == WordStartsFrom(s, 0)
    decreases |s|
  {
    if s != [] {
      if IsSpace(s[0]) {
        SplitWordsCount(s[1..]);
        StartsAfterSpace(s, 1);
      } else {
        var n := WordLength(s);
        SplitWordsCount(s[n..]);
        assert |SplitWords(s)| == 1 + |SplitWords(s[n..])|;
        NoStartsWithin(s, 1, n);
        StartsAfterSpace(s, n);
      }
    }
  }

  /** The words of a list written one after the other, with nothing between them. */
  function Concat(ws: seq<string>): string {
    if ws == [] then [] else ws[0] + Concat(ws[1..])
  }

  /** The characters of `s` that are not whitespace, in order. */
  function NonSpace(s: string): string {
    if s == [] then [] else (if IsSpace(s[0]) then [] else [s[0]]) + NonSpace(s[1..])
  }

  lemma {:induction false} NonSpaceAppend(a: string, b: string)
    ensures NonSpace(a + b) == NonSpace(a) + NonSpace(b)
    decreases |a|
  {
    if a != [] {
      assert (a + b)[0] == a[0] && (a + b)[1..] == a[1..] + b;
      NonSpaceAppend(a[1..], b);
    } else {
      assert a + b == b;
    }
  }

  lemma {:induction false} NonSpaceOfWord(w: string)
    requires forall i :: 0 <= i < |w| ==> !IsSpace(w[i])
    ensures NonSpace(w) == w
    decreases |w|
  {
    if w != [] {
      NonSpaceOfWord(w[1..]);
      assert w == [w[0]] + w[1..];
    }
  }

  /** Index `i` begins a word: its character is not whitespace and follows whitespace or the start. */
  predicate IsWordStart(s: string, i: nat)
    requires i < |s|
  {
    !IsSpace(s[i]) && (i == 0 || IsSpace(s[i - 1]))
  }

  /** The number of indices at or after `i` that begin a word. */
  function WordStartsFrom(s: string, i: nat): nat
    requires i <= |s|
    decreases |s| - i
  {
    if i == |s| then 0 else (if IsWordStart(s, i) then 1 else 0) + WordStartsFrom(s, i + 1)
  }

  /** Counting word starts is unchanged by shifting to a text that agrees on them. */
  lemma {:induction false} StartsShift(s: string, t: string, k: nat, m: nat)
    requires |t| + k == |s| && m <= |t|
    requires forall j :: k + m <= j < |s| ==> (IsWordStart(s, j) <==> IsWordStart(t, j - k))
    ensures WordStartsFrom(s, k + m) == WordStartsFrom(t, m)
    decreases |t| - m
  {
    if m < |t| {
      StartsShift(s, t, k, m + 1);
    }
  }

  /** After whitespace (or at the start), the suffix from `k` has as many word starts as `s` from `k`. */
  lemma StartsAfterSpace(s: string, k: nat)
    requires 0 < k <= |s| && (k == |s| || IsSpace(s[k - 1]) || IsSpace(s[k]))
    ensures WordStartsFrom(s, k) == WordStartsFrom(s[k..], 0)
  {
    var t := s[k..];
    forall j | k <= j < |s| ensures IsWordStart(s, j) <==> IsWordStart(t, j - k) {
      if j > k {
        assert t[j - k - 1] == s[j - 1];
      }
    }
    StartsShift(s, t, k, 0);
  }

  /** No index in [i, n) begins a word when all of `s[i - 1..n]` is free of whitespace. */
  lemma {:induction false} NoStartsWithin(s: string, i: nat, n: nat)
    requires 0 < i <= n <= |s|
    requires forall j :: i - 1 <= j < n ==> !IsSpace(s[j])
    ensures WordStartsFrom(s, i) == WordStartsFrom(s, n)
    decreases n - i
  {
    if i < n {
      NoStartsWithin(s, i + 1, n);
    }
  }

  /** A text made only of whitespace has no words. */
  lemma {:induction false} SplitBlank(s: string)
    requires forall i :: 0 <= i < |s| ==> IsSpace(s[i])
    ensures SplitWords(s) == []
    decreases |s|
  {
    if s != [] {
      SplitBlank(s[1..]);
    }
  }

  /** `' '.join(ws)`. */
  function JoinWords(ws: seq<string>): (r: string)
    ensures ws == [] ==> r == []
    ensures ws != [] ==> |ws[0]| <= |r| && r[..|ws[0]|] == ws[0]
    ensures forall c :: c in r ==> c == ' ' || exists w :: w in ws && c in w
  {
    if ws == [] then []
    else if |ws| == 1 then ws[0]
    else
      var rest := JoinWords(ws[1..]);
      assert forall w :: w in ws[1..] ==> w in ws;
      assert ws[0] in ws;
      ws[0] + " " + rest
  }

  lemma {:induction false} WordLengthOfWord(w: string, rest: string)
    requires IsWord(w)
    requires rest == [] || IsSpace(rest[0])
    ensures WordLength(w + rest) == |w|
    decreases |w|
  {
    if |w| > 1 {
      assert (w + rest)[1..] == w[1..] + rest;
      assert w[1..][0] in w;
      WordLengthOfWord(w[1..], rest);
    } else {
      assert (w + rest)[1..] == rest;
      assert w[0] in w;
    }
  }

  /** Splitting a space-joined list of words gives the words back. */
  lemma {:induction false} SplitJoin(ws: seq<string>)
    requires forall i :: 0 <= i < |ws| ==> IsWord(ws[i])
    ensures SplitWords(JoinWords(ws)) == ws
    decreases |ws|
  {
    if ws != [] {
      var w := ws[0];
      var s := JoinWords(ws);
      var rest := if |ws| == 1 then [] else " " + JoinWords(ws[1..]);
      assert s == w + rest;
      WordLengthOfWord(w, rest);
      assert w[0] in w;
      assert !IsSpace(s[0]);
      assert s[..|w|] == w;
      assert s[|w|..] == rest;
      if |ws| > 1 {
        assert rest[1..] == JoinWords(ws[1..]);
        SplitJoin(ws[1..]);
      }
    }
  }

  /** Joining clean words with spaces gives a clean text. */
  lemma {:induction false} JoinClean(ws: seq<string>)
    requires forall w, c :: w in ws && c in w ==> IsCleanChar(c)
    ensures forall c :: c in JoinWords(ws) ==> IsCleanChar(c)
    decreases |ws|
  {
    if |ws| > 1 {
      assert forall w :: w in ws[1..] ==> w in ws;
      JoinClean(ws[1..]);
      assert ws[0] in ws;
      assert JoinWords(ws) == ws[0] + " " + JoinWords(ws[1..]);
    } else if |ws| == 1 {
      assert ws[0] in ws;
    }
  }

  // ---------------------------------------------------------------- clean_text

  /** `re.sub(r'[^a-zA-Z0-9 ]+', '', s)`: drop every character outside the class. */
  function StripDisallowed(s: string): (r: string)
    ensures |r| <= |s|
    ensures forall c :: c in r <==> c in s && IsKept(c)
  {
    if s == [] then []
    else
      assert forall c :: c in s <==> c == s[0] || c in s[1..];
      (if IsKept(s[0]) then [s[0]] else []) + StripDisallowed(s[1..])
  }

  /** The substitution works character by character: it keeps order and multiplicity. */
  lemma {:induction false} StripAppend(a: string, b: string)
    ensures StripDisallowed(a + b) == StripDisallowed(a) + StripDisallowed(b)
    ensures |a| == 1 ==> StripDisallowed(a) == if IsKept(a[0]) then a else []
    decreases |a|
  {
    if a != [] {
      assert (a + b)[0] == a[0] && (a + b)[1..] == a[1..] + b;
      StripAppend(a[1..], b);
    } else {
      assert a + b == b;
    }
  }

  /** Stripping a text that only holds kept characters changes nothing. */
  lemma {:induction false} StripKeepsKept(s: string)
    requires forall c :: c in s ==> IsKept(c)
    ensures StripDisallowed(s) == s
  {
    if s != [] {
      assert s[0] in s;
      assert forall c :: c in s[1..] ==> c in s;
      StripKeepsKept(s[1..]);
      assert s == [s[0]] + s[1..];
    }
  }

  /** The stop words that are always kept, whatever the stop-word list says. */
  const KeptWords: set<string> := {"more", "most", "less", "not", "very"}

  /** `[t for t in tokens if t not in stop]`. */
  function RemoveStopWords(tokens: seq<string>, stop: set<string>): (r: seq<string>)
    ensures |r| <= |tokens|
    ensures forall w :: w in r <==> w in tokens && w !in stop
  {
    if tokens == [] then []
    else
      assert forall w :: w in tokens <==> w == tokens[0] || w in tokens[1..];
      (if tokens[0] in stop then [] else [tokens[0]]) + RemoveStopWords(tokens[1..], stop)
  }

  /** The filter works token by token: it keeps order and repeats. */
  lemma {:induction false} RemoveStopWordsAppend(a: seq<string>, b: seq<string>, stop: set<string>)
    ensures RemoveStopWords(a + b, stop) == RemoveStopWords(a, stop) + RemoveStopWords(b, stop)
    ensures |a| == 1 ==> RemoveStopWords(a, stop) == if a[0] in stop then [] else a
    decreases |a|
  {
    if a != [] {
      assert (a + b)[0] == a[0] && (a + b)[1..] == a[1..] + b;
      RemoveStopWordsAppend(a[1..], b, stop);
      var head := if a[0] in stop then [] else [a[0]];
      assert RemoveStopWords(a + b, stop) == head + RemoveStopWords(a[1..] + b, stop);
      assert RemoveStopWords(a, stop) == head + RemoveStopWords(a[1..], stop);
    } else {
      assert a + b == b;
    }
  }

  lemma {:induction false} RemoveStopWordsIdempotent(tokens: seq<string>, stop: set<string>)
    ensures RemoveStopWords(RemoveStopWords(tokens, stop), stop) == RemoveStopWords(tokens, stop)
    decreases |tokens|
  {
    if tokens != [] {
      RemoveStopWordsIdempotent(tokens[1..], stop);
      var rest := RemoveStopWords(tokens[1..], stop);
      if tokens[0] !in stop {
        var once := [tokens[0]] + rest;
        assert once != [] && once[0] == tokens[0] && once[1..] == rest;
        assert RemoveStopWords(tokens, stop) == once;
        assert RemoveStopWords(once, stop) == [tokens[0]] + RemoveStopWords(rest, stop);
      } else {
        assert RemoveStopWords(tokens, stop) == rest;
      }
    }
  }

  /** The tokens `clean_text` splits before filtering: of the stripped, lowercased text. */
  function RawTokens(text: string): seq<string> {
    SplitWords(Lower(StripDisallowed(text)))
  }

  /**
   * `clean_text(text)`: strip, lowercase, tokenise, drop the stop words
   * (less the always-kept words), join with single spaces. The stop-word
   * corpus is the parameter `stop`.
   */
  function CleanText(text: string, stop: set<string>): (r: string)
    ensures forall c :: c in r ==> IsCleanChar(c)
  {
    var tokens := RawTokens(text);
    var kept := RemoveStopWords(tokens, stop - KeptWords);
    CleanTokens(text);
    JoinClean(kept);
    JoinWords(kept)
  }

  /** Every character of a raw token is a lowercase letter, a digit or a space. */
  lemma CleanTokens(text: string)
    ensures forall w, c :: w in RawTokens(text) && c in w ==> IsCleanChar(c)
  {
    var low := Lower(StripDisallowed(text));
    forall c | c in low ensures IsCleanChar(c) {
      var i :| 0 <= i < |low| && low[i] == c;
      assert StripDisallowed(text)[i] in StripDisallowed(text);
    }
    forall w, c | w in RawTokens(text) && c in w ensures IsCleanChar(c) {
      var i :| 0 <= i < |RawTokens(text)| && RawTokens(text)[i] == w;
    }
  }

  /** The words of the normalised text are the raw tokens minus the effective stop words. */
  lemma CleanTextWords(text: string, stop: set<string>)
    ensures SplitWords(CleanText(text, stop)) == RemoveStopWords(RawTokens(text), stop - KeptWords)
    ensures forall w :: w in SplitWords(CleanText(text, stop)) ==> w !in stop || w in KeptWords
    ensures forall w :: w in KeptWords && w in RawTokens(text) ==> w in SplitWords(CleanText(text, stop))
  {
    var kept := RemoveStopWords(RawTokens(text), stop - KeptWords);
    assert forall i :: 0 <= i < |kept| ==> kept[i] in RawTokens(text);
    SplitJoin(kept);
  }

  /** Normalising an already normalised text changes nothing. */
  lemma CleanTextIdempotent(text: string, stop: set<string>)
    ensures CleanText(CleanText(text, stop), stop) == CleanText(text, stop)
  {
    var once := CleanText(text, stop);
    var eff := stop - KeptWords;
    forall c | c in once ensures IsKept(c) { }
    StripKeepsKept(once);
    forall i | 0 <= i < |once| ensures Lower(once)[i] == once[i] {
      assert once[i] in once;
    }
    assert Lower(once) == once;
    CleanTextWords(text, stop);
    RemoveStopWordsIdempotent(RawTokens(text), eff);
  }
}
