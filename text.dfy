/**
 * The few Python `str` operations the knowledge-base ranking and the resolver rely on:
 * whitespace classification, `strip`, `split()`, `lower`, substring containment
 * (`w in text`) and the lexicographic `<` on strings.
 */
module Text {

  /** Python's `str.isspace` for one character: the separators used by `strip()` and `split()`. */
  predicate IsSpace(c: char) {
    || c == ' '
    || ('\t' <= c <= '\r')
    || ('\U{1C}' <= c <= '\U{1F}')
    || c == '\U{85}' || c == '\U{A0}' || c == '\U{1680}'
    || ('\U{2000}' <= c <= '\U{200A}')
    || c == '\U{2028}' || c == '\U{2029}' || c == '\U{202F}' || c == '\U{205F}' || c == '\U{3000}'
  }

  /** Every character of `s` is whitespace (vacuously true of ""). */
  predicate IsBlank(s: string) {
    forall i :: 0 <= i < |s| ==> IsSpace(s[i])
  }

  /** No character of `w` is whitespace. */
  predicate NoSpace(w: string) {
    forall i :: 0 <= i < |w| ==> !IsSpace(w[i])
  }

  /** A word of `split()`: non-empty and free of whitespace. */
  predicate IsWord(w: string) {
    w != [] && NoSpace(w)
  }

  /** `s` with its leading whitespace removed. */
  function LStrip(s: string): string {
    if s != [] && IsSpace(s[0]) then LStrip(s[1..]) else s
  }

  /** `LStrip` removes exactly the leading whitespace: a blank prefix, leaving a suffix that starts otherwise. */
  lemma {:induction false} LStripSpec(s: string)
    ensures |LStrip(s)| <= |s| && LStrip(s) == s[|s| - |LStrip(s)|..]
    ensures LStrip(s) != [] ==> !IsSpace(LStrip(s)[0])
    ensures IsBlank(s[..|s| - |LStrip(s)|])
    decreases |s|
  {
    if s != [] && IsSpace(s[0]) {
      var s' := s[1..];
      LStripSpec(s');
      var r := LStrip(s');
      assert s'[|s'| - |r|..] == s[|s| - |r|..];
      assert s[..|s| - |r|] == [s[0]] + s'[..|s'| - |r|];
    }
  }

  /** `s` with its trailing whitespace removed. */
  function RStrip(s: string): string {
    if s != [] && IsSpace(s[|s| - 1]) then RStrip(s[..|s| - 1]) else s
  }

  /** `RStrip` removes exactly the trailing whitespace: a blank suffix, leaving a prefix that ends otherwise. */
  lemma {:induction false} RStripSpec(s: string)
    ensures |RStrip(s)| <= |s| && RStrip(s) == s[..|RStrip(s)|]
    ensures RStrip(s) != [] ==> !IsSpace(RStrip(s)[|RStrip(s)| - 1])
    ensures IsBlank(s[|RStrip(s)|..])
    decreases |s|
  {
    if s != [] && IsSpace(s[|s| - 1]) {
      var s' := s[..|s| - 1];
      RStripSpec(s');
      var r := RStrip(s');
      assert s'[..|r|] == s[..|r|];
      assert s[|r|..] == s'[|r|..] + [s[|s| - 1]];
    }
  }

  /** Python's `s.strip()` with no argument. */
  function Strip(s: string): string {
    RStrip(LStrip(s))
  }

  /** `s.strip()` is empty exactly when `s` is blank. */
  lemma StripEmptyIffBlank(s: string)
    ensures Strip(s) == [] <==> IsBlank(s)
  {
    LStripSpec(s);
    var t := LStrip(s);
    RStripSpec(t);
    assert s == s[..|s| - |t|] + t;
    if t != [] {
      assert s[|s| - |t|] == t[0];
    }
  }

  /** The length of the longest prefix of `s` free of whitespace. */
  function WordLen(s: string): nat {
    if s == [] || IsSpace(s[0]) then 0 else 1 + WordLen(s[1..])
  }

  /** `WordLen` measures a whitespace-free prefix that ends at whitespace or at the end. */
  lemma {:induction false} WordLenSpec(s: string)
    ensures WordLen(s) <= |s|
    ensures NoSpace(s[..WordLen(s)])
    ensures WordLen(s) < |s| ==> IsSpace(s[WordLen(s)])
    decreases |s|
  {
    if s != [] && !IsSpace(s[0]) {
      WordLenSpec(s[1..]);
      assert s[..WordLen(s)] == [s[0]] + s[1..][..WordLen(s[1..])];
    }
  }

  /** Python's `s.split()` with no argument: the maximal runs of non-whitespace, in order. */
  function Words(s: string): seq<string>
    decreases |s|
  {
    var t := LStrip(s);
    if t == [] then []
    else
      LStripSpec(s);
      WordLenSpec(t);
      var n := WordLen(t);
      [t[..n]] + Words(t[n..])
  }

  /** `split()` yields only non-empty words made of non-whitespace characters. */
  lemma {:induction false} WordsAreWords(s: string)
    ensures forall k :: 0 <= k < |Words(s)| ==> IsWord(Words(s)[k])
    decreases |s|
  {
    var t := LStrip(s);
    if t != [] {
      LStripSpec(s);
      WordLenSpec(t);
      var n := WordLen(t);
      var rest := Words(t[n..]);
      WordsAreWords(t[n..]);
      assert Words(s) == [t[..n]] + rest;
      forall k | 0 < k < |Words(s)|
        ensures IsWord(Words(s)[k])
      {
        assert Words(s)[k] == rest[k - 1];
      }
    }
  }

  /** `split()` yields no word exactly when the text is blank. */
  lemma WordsEmptyIffBlank(s: string)
    ensures Words(s) == [] <==> IsBlank(s)
  {
    LStripSpec(s);
    var t := LStrip(s);
    assert s == s[..|s| - |t|] + t;
    if t != [] {
      assert s[|s| - |t|] == t[0];
    }
  }

  /** Stripping leading whitespace twice changes nothing. */
  lemma LStripIdempotent(s: string)
    ensures LStrip(LStrip(s)) == LStrip(s)
  {
    LStripSpec(s);
  }

  /** Leading whitespace does not change the words. */
  lemma WordsOfLStrip(s: string)
    ensures Words(LStrip(s)) == Words(s)
  {
    LStripIdempotent(s);
  }

  /** Trailing whitespace does not change the words. */
  lemma {:induction false} WordsAppendBlank(t: string, ws: string)
    requires IsBlank(ws)
    ensures Words(t + ws) == Words(t)
    decreases |t|
  {
    var u := LStrip(t);
    LStripAppendBlank(t, ws);
    if u != [] {
      LStripSpec(t);
      WordLenSpec(u);
      var n := WordLen(u);
      WordLenAppendBlank(u, ws);
      WordsAppendBlankStep(u, ws, n);
      WordsAppendBlank(u[n..], ws);
    }
  }

  /** The sequence facts `WordsAppendBlank` needs about one split step. */
  lemma WordsAppendBlankStep(u: string, ws: string, n: nat)
    requires n <= |u|
    ensures (u + ws)[..n] == u[..n] && (u + ws)[n..] == u[n..] + ws
  {
  }

  lemma {:induction false} LStripAppendBlank(t: string, ws: string)
    requires IsBlank(ws)
    ensures LStrip(t) == [] ==> LStrip(t + ws) == []
    ensures LStrip(t) != [] ==> LStrip(t + ws) == LStrip(t) + ws
    decreases |t|
  {
    if t == [] {
      assert t + ws == ws;
      LStripBlank(ws);
    } else if IsSpace(t[0]) {
      assert (t + ws)[1..] == t[1..] + ws;
      LStripAppendBlank(t[1..], ws);
    } else {
      assert (t + ws)[0] == t[0];
    }
  }

  lemma {:induction false} LStripBlankPrefix(p: string, u: string)
    requires IsBlank(p)
    requires u != [] ==> !IsSpace(u[0])
    ensures LStrip(p + u) == u
    decreases |p|
  {
    if p != [] {
      assert (p + u)[1..] == p[1..] + u;
      LStripBlankPrefix(p[1..], u);
    } else {
      assert p + u == u;
    }
  }

  lemma LStripBlank(ws: string)
    requires IsBlank(ws)
    ensures LStrip(ws) == []
  {
    LStripBlankPrefix(ws, []);
    assert ws + [] == ws;
  }

  lemma {:induction false} WordLenAppendBlank(u: string, ws: string)
    requires IsBlank(ws)
    ensures WordLen(u + ws) == WordLen(u)
    decreases |u|
  {
    if u != [] && !IsSpace(u[0]) {
      assert (u + ws)[1..] == u[1..] + ws;
      WordLenAppendBlank(u[1..], ws);
    } else if u == [] {
      assert u + ws == ws;
    } else {
      assert (u + ws)[0] == u[0];
    }
  }

  /** `s.strip().split()` is `s.split()`: stripping first changes no word. */
  lemma WordsOfStrip(s: string)
    ensures Words(Strip(s)) == Words(s)
  {
    var t := LStrip(s);
    var r := RStrip(t);
    RStripSpec(t);
    assert t == r + t[|r|..];
    WordsAppendBlank(r, t[|r|..]);
    WordsOfLStrip(s);
  }

  /** Gaps and words laid out alternately: `gaps[0] + ws[0] + gaps[1] + ... + ws[n-1] + gaps[n]`. */
  function Spaced(gaps: seq<string>, ws: seq<string>): string
    requires |gaps| == |ws| + 1
    decreases |ws|
  {
    if ws == [] then gaps[0] else gaps[0] + ws[0] + Spaced(gaps[1..], ws[1..])
  }

  /** Every gap is blank, and the gaps between two words are not empty. */
  predicate Separates(gaps: seq<string>, ws: seq<string>) {
    && |gaps| == |ws| + 1
    && (forall k :: 0 <= k < |gaps| ==> IsBlank(gaps[k]))
    && (forall k :: 0 < k < |ws| ==> gaps[k] != [])
  }

  /** Every entry is a word. */
  predicate AllWords(ws: seq<string>) {
    forall k :: 0 <= k < |ws| ==> IsWord(ws[k])
  }

  /** A word followed by whitespace or by nothing is measured whole by `WordLen`. */
  lemma {:induction false} WordLenOfWord(w: string, rest: string)
    requires NoSpace(w) && (rest == [] || IsSpace(rest[0]))
    ensures WordLen(w + rest) == |w|
    decreases |w|
  {
    if w == [] {
      assert w + rest == rest;
    } else {
      assert (w + rest)[0] == w[0];
      assert (w + rest)[1..] == w[1..] + rest;
      WordLenOfWord(w[1..], rest);
    }
  }

  /** One split step on `gap + word + rest`, where `rest` is empty or starts with whitespace. */
  lemma WordsStep(gap: string, w: string, rest: string)
    requires IsBlank(gap) && IsWord(w) && (rest == [] || IsSpace(rest[0]))
    ensures Words(gap + w + rest) == [w] + Words(rest)
  {
    var u := w + rest;
    assert u[0] == w[0];
    assert gap + w + rest == gap + u;
    LStripBlankPrefix(gap, u);
    WordLenOfWord(w, rest);
    assert u[..|w|] == w && u[|w|..] == rest;
  }

  /**
   * `split()` is pinned down: whenever the text is words separated by non-empty runs of
   * whitespace, with whitespace or nothing at either end, those words are exactly what `split()` yields.
   */
  lemma {:induction false} WordsUnique(gaps: seq<string>, ws: seq<string>)
    requires Separates(gaps, ws) && AllWords(ws)
    ensures Words(Spaced(gaps, ws)) == ws
    decreases |ws|
  {
    if ws == [] {
      WordsEmptyIffBlank(gaps[0]);
    } else {
      var g' := gaps[1..];
      var ws' := ws[1..];
      assert Separates(g', ws') by {
        assert forall k :: 0 < k < |ws'| ==> g'[k] == gaps[k + 1];
      }
      assert AllWords(ws') by {
        assert forall k :: 0 <= k < |ws'| ==> ws'[k] == ws[k + 1];
      }
      var rest := Spaced(g', ws');
      assert IsBlank(g'[0]);
      assert rest == [] || IsSpace(rest[0]) by {
        if ws' != [] {
          assert g'[0] != [];
          assert rest[0] == g'[0][0];
        } else {
          assert rest == g'[0];
        }
      }
      assert IsWord(ws[0]);
      WordsStep(gaps[0], ws[0], rest);
      WordsUnique(g', ws');
    }
  }

  /** The characters of `s` other than whitespace, in order. */
  function NonSpace(s: string): (r: string)
    ensures |r| <= |s|
  {
    if s == [] then [] else (if IsSpace(s[0]) then [] else [s[0]]) + NonSpace(s[1..])
  }

  /** The words laid end to end. */
  function Concat(ws: seq<string>): string {
    if ws == [] then [] else ws[0] + Concat(ws[1..])
  }

  lemma {:induction false} NonSpaceAppend(a: string, b: string)
    ensures NonSpace(a + b) == NonSpace(a) + NonSpace(b)
    decreases |a|
  {
    if a == [] {
      assert a + b == b;
    } else {
      assert (a + b)[1..] == a[1..] + b;
      NonSpaceAppend(a[1..], b);
    }
  }

  lemma {:induction false} NonSpaceOfBlank(s: string)
    requires IsBlank(s)
    ensures NonSpace(s) == []
    decreases |s|
  {
    if s != [] {
      NonSpaceOfBlank(s[1..]);
    }
  }

  lemma {:induction false} NonSpaceOfWord(s: string)
    requires NoSpace(s)
    ensures NonSpace(s) == s
    decreases |s|
  {
    if s != [] {
      NonSpaceOfWord(s[1..]);
    }
  }

  /** Leading whitespace holds no non-whitespace character. */
  lemma NonSpaceOfLStrip(s: string)
    ensures NonSpace(LStrip(s)) == NonSpace(s)
  {
    LStripSpec(s);
    var t := LStrip(s);
    var p := s[..|s| - |t|];
    assert s == p + t;
    NonSpaceAppend(p, t);
    NonSpaceOfBlank(p);
  }

  /** A whitespace-free prefix passes through `NonSpace` whole. */
  lemma NonSpaceSplit(t: string, n: nat)
    requires n <= |t| && NoSpace(t[..n])
    ensures NonSpace(t) == t[..n] + NonSpace(t[n..])
  {
    assert t == t[..n] + t[n..];
    NonSpaceAppend(t[..n], t[n..]);
    NonSpaceOfWord(t[..n]);
  }

  /** `split()` drops exactly the whitespace: its words laid end to end are the other characters. */
  lemma {:induction false} WordsKeepNonSpace(s: string)
    ensures Concat(Words(s)) == NonSpace(s)
    decreases |s|
  {
    var t := LStrip(s);
    NonSpaceOfLStrip(s);
    if t != [] {
      LStripSpec(s);
      WordLenSpec(t);
      var n := WordLen(t);
      NonSpaceSplit(t, n);
      WordsKeepNonSpace(t[n..]);
      var ws := Words(s);
      assert ws == [t[..n]] + Words(t[n..]);
      assert ws[1..] == Words(t[n..]);
    }
  }

  /** Python's `c.lower()` on one character; only A-Z are mapped. */
  function LowerChar(c: char): char {
    if 'A' <= c <= 'Z' then (c as int + 32) as char else c
  }

  /** Python's `s.lower()`, character by character. */
  function Lower(s: string): string {
    seq(|s|, i requires 0 <= i < |s| => LowerChar(s[i]))
  }

  /** Lower-casing a concatenation lower-cases each part. */
  lemma LowerAppend(a: string, b: string)
    ensures Lower(a + b) == Lower(a) + Lower(b)
  {
    assert forall i :: 0 <= i < |a + b| ==> (a + b)[i] == if i < |a| then a[i] else b[i - |a|];
  }

  /** Lower-cased text is left alone by a second `lower()`. */
  lemma LowerIdempotent(s: string)
    ensures Lower(Lower(s)) == Lower(s)
  {
  }

  /** Lower-cased text holds no capital letter. */
  lemma LowerHasNoCapital(s: string)
    ensures forall i :: 0 <= i < |Lower(s)| ==> !('A' <= Lower(s)[i] <= 'Z')
  {
  }

  /** Lower-casing moves no whitespace: the same positions are whitespace before and after. */
  lemma LowerKeepsSpace(s: string)
    ensures |Lower(s)| == |s|
    ensures forall i :: 0 <= i < |s| ==> (IsSpace(Lower(s)[i]) <==> IsSpace(s[i]))
  {
  }

  /** `w` occurs in `text` at some position: the meaning of Python's `w in text`. */
  ghost predicate OccursIn(w: string, text: string) {
    exists i :: 0 <= i && OccursAt(w, text, i)
  }

  /** `w` occurs in `text` starting at index `i`. */
  ghost predicate OccursAt(w: string, text: string, i: nat) {
    i + |w| <= |text| && text[i..i + |w|] == w
  }

  /** Python's `w in text`, decided by scanning `text` from the left. */
  function Contains(text: string, w: string): (b: bool)
    ensures b <==> OccursIn(w, text)
    decreases |text|
  {
    if |w| > |text| then false
    else if text[..|w|] == w then assert OccursAt(w, text, 0); true
    else
      var b := Contains(text[1..], w);
      assert OccursIn(w, text[1..]) ==> OccursIn(w, text) by {
        if OccursIn(w, text[1..]) {
          var i :| 0 <= i && OccursAt(w, text[1..], i);
          assert text[i + 1..i + 1 + |w|] == w;
          assert OccursAt(w, text, i + 1);
        }
      }
      assert OccursIn(w, text) ==> OccursIn(w, text[1..]) by {
        if OccursIn(w, text) {
          var i :| 0 <= i && OccursAt(w, text, i);
          assert i != 0;
          assert text[1..][i - 1..i - 1 + |w|] == w;
          assert OccursAt(w, text[1..], i - 1);
        }
      }
      b
  }

  /** Python's `a < b` on strings: lexicographic order of code points. */
  predicate Less(a: string, b: string)
    decreases |a|
  {
    if a == [] then b != []
    else if b == [] then false
    else if a[0] != b[0] then a[0] < b[0]
    else Less(a[1..], b[1..])
  }

  lemma {:induction false} LessIrreflexive(a: string)
    ensures !Less(a, a)
    decreases |a|
  {
    if a != [] { LessIrreflexive(a[1..]); }
  }

  lemma {:induction false} LessTransitive(a: string, b: string, c: string)
    requires Less(a, b) && Less(b, c)
    ensures Less(a, c)
    decreases |a|
  {
    if a != [] && b != [] && c != [] && a[0] == b[0] && b[0] == c[0] {
      LessTransitive(a[1..], b[1..], c[1..]);
    }
  }

  /** Any two different strings are ordered one way or the other. */
  lemma {:induction false} LessTotal(a: string, b: string)
    ensures a == b || Less(a, b) || Less(b, a)
    decreases |a|
  {
    if a != [] && b != [] && a[0] == b[0] {
      LessTotal(a[1..], b[1..]);
      if a[1..] == b[1..] {
        assert a == [a[0]] + a[1..] && b == [b[0]] + b[1..];
      }
    }
  }

  lemma {:induction false} LessAsymmetric(a: string, b: string)
    requires Less(a, b)
    ensures !Less(b, a)
    decreases |a|
  {
    if a != [] && b != [] && a[0] == b[0] {
      LessAsymmetric(a[1..], b[1..]);
    }
  }
}
