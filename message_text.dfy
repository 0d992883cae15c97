/** The text normalisation of src/lib/messageParser.ts: `normalizeText`, `lcAll` and
    `cleanRole`, with the shape each leaves its result in. */
module MessageText {
  import opened Wrappers
  import opened Text

  /** The characters of `s` that are not white space, in order. */
  function NonSpace(s: string): string {
    if s == [] then [] else (if IsSpace(s[0]) then [] else [s[0]]) + NonSpace(s[1..])
  }

  lemma {:induction false} NonSpaceAppend(a: string, b: string)
    ensures NonSpace(a + b) == NonSpace(a) + NonSpace(b)
    decreases |a|
  {
    if a != [] {
      assert (a + b)[1..] == a[1..] + b;
      NonSpaceAppend(a[1..], b);
    } else {
      assert a + b == b;
    }
  }

  lemma {:induction false} NonSpaceOfSpaces(s: string)
    requires forall i :: 0 <= i < |s| ==> IsSpace(s[i])
    ensures NonSpace(s) == []
    decreases |s|
  {
    if s != [] { NonSpaceOfSpaces(s[1..]); }
  }

  /** Two spaces side by side at index `i`. */
  predicate SpacePairAt(r: string, i: int) {
    0 <= i && i + 1 < |r| && r[i] == ' ' && r[i + 1] == ' '
  }

  /** The only white space is the plain space. */
  predicate PlainSpacesOnly(r: string) {
    forall i :: 0 <= i < |r| && IsSpace(r[i]) ==> r[i] == ' '
  }

  predicate NoDoubleSpace(r: string) {
    forall i :: 0 <= i < |r| ==> !SpacePairAt(r, i)
  }

  lemma ShapeCons(c: char, t: string)
    requires PlainSpacesOnly(t) && NoDoubleSpace(t)
    requires IsSpace(c) ==> c == ' '
    requires c == ' ' && t != [] ==> t[0] != ' '
    ensures PlainSpacesOnly([c] + t) && NoDoubleSpace([c] + t)
  {
    var r := [c] + t;
    forall i | 0 <= i < |r| ensures !SpacePairAt(r, i) {
      if i > 0 {
        assert r[i] == t[i - 1];
        if i + 1 < |r| { assert r[i + 1] == t[i]; }
        assert !SpacePairAt(t, i - 1);
      }
    }
    forall i | 0 <= i < |r| && IsSpace(r[i]) ensures r[i] == ' ' {
      if i > 0 { assert r[i] == t[i - 1]; }
    }
  }

  lemma ShapeTail(t: string)
    requires t != [] && PlainSpacesOnly(t) && NoDoubleSpace(t)
    ensures PlainSpacesOnly(t[1..]) && NoDoubleSpace(t[1..])
  {
    var r := t[1..];
    forall i | 0 <= i < |r| ensures !SpacePairAt(r, i) {
      assert !SpacePairAt(t, i + 1);
    }
    forall i | 0 <= i < |r| && IsSpace(r[i]) ensures r[i] == ' ' {
      assert r[i] == t[i + 1];
    }
  }

  /** `s.replace(/\s+/g, ' ')`: every maximal run of white space becomes one space. */
  function Collapse(s: string): string
    decreases |s|
  {
    if s == [] then []
    else if IsSpace(s[0]) then [' '] + Collapse(TrimStart(s))
    else [s[0]] + Collapse(s[1..])
  }

  /** A collapsed text has single plain spaces only, starts with a space exactly when the
      input starts with white space, keeps every other character in order, and is the
      input's words joined by single spaces (with one space for a leading and one for a
      trailing run). */
  lemma {:induction false} CollapseShape(s: string)
    ensures PlainSpacesOnly(Collapse(s)) && NoDoubleSpace(Collapse(s))
    ensures s != [] ==> Collapse(s) != [] && (Collapse(s)[0] == ' ' <==> IsSpace(s[0]))
    ensures NonSpace(Collapse(s)) == NonSpace(s)
    ensures Collapse(s) == SpacedWords(s)
    decreases |s|
  {
    CollapseSpacedWords(s);
    if s == [] {
    } else if IsSpace(s[0]) {
      var rest := TrimStart(s);
      TrimStartShape(s);
      CollapseShape(rest);
      ShapeCons(' ', Collapse(rest));
      assert s == s[..|s| - |rest|] + rest;
      NonSpaceAppend(s[..|s| - |rest|], rest);
      NonSpaceOfSpaces(s[..|s| - |rest|]);
      NonSpaceAppend([' '], Collapse(rest));
    } else {
      CollapseShape(s[1..]);
      ShapeCons(s[0], Collapse(s[1..]));
      assert s == [s[0]] + s[1..];
      NonSpaceAppend([s[0]], s[1..]);
      NonSpaceAppend([s[0]], Collapse(s[1..]));
    }
  }

  /** The shape every normalised text has: the only white space is single inner spaces. */
  predicate Normalised(r: string) {
    && PlainSpacesOnly(r)
    && NoDoubleSpace(r)
    && (r != [] ==> r[0] != ' ' && r[|r| - 1] != ' ')
  }

  lemma NormalisedSlice(c: string, i: nat, j: nat)
    requires i <= j <= |c|
    requires PlainSpacesOnly(c) && NoDoubleSpace(c)
    requires i < j ==> c[i] != ' ' && c[j - 1] != ' '
    ensures Normalised(c[i..j])
  {
    var r := c[i..j];
    forall k | 0 <= k < |r| ensures !SpacePairAt(r, k) {
      if SpacePairAt(r, k) {
        assert r[k] == c[i + k] && r[k + 1] == c[i + k + 1];
        assert SpacePairAt(c, i + k);
      }
    }
    forall k | 0 <= k < |r| && IsSpace(r[k]) ensures r[k] == ' ' {
      assert r[k] == c[i + k];
    }
  }

  /** Trimming keeps a contiguous slice whose end characters are not white space. */
  lemma TrimSlice(c: string) returns (i: nat)
    ensures i + |Trim(c)| <= |c| && Trim(c) == c[i..i + |Trim(c)|]
    ensures Trim(c) != [] ==> !IsSpace(c[i]) && !IsSpace(c[i + |Trim(c)| - 1])
  {
    var d := TrimStart(c);
    var r := TrimEnd(d);
    TrimStartShape(c);
    TrimEndShape(d);
    i := |c| - |d|;
    SliceOfSlice(c, i, |r|);
    if r != [] {
      assert c[i] == r[0] && c[i + |r| - 1] == r[|r| - 1];
    }
  }

  lemma SliceOfSlice(s: string, i: nat, n: nat)
    requires i + n <= |s|
    ensures s[i..][..n] == s[i..i + n]
  {
  }

  /** Trimming a collapsed text leaves a normalised one with the same non-space characters. */
  lemma TrimCollapsed(c: string)
    requires PlainSpacesOnly(c) && NoDoubleSpace(c)
    ensures Normalised(Trim(c))
    ensures NonSpace(Trim(c)) == NonSpace(c)
  {
    var i := TrimSlice(c);
    var n := |Trim(c)|;
    if n > 0 {
      assert c[i] != ' ' && c[i + n - 1] != ' ';
    }
    NormalisedSlice(c, i, i + n);
    TrimKeepsNonSpace(c, TrimStart(c), Trim(c));
  }

  lemma TrimKeepsNonSpace(c: string, d: string, r: string)
    requires d == TrimStart(c) && r == TrimEnd(d)
    ensures NonSpace(r) == NonSpace(c)
  {
    TrimStartKeepsNonSpace(c);
    TrimEndKeepsNonSpace(d);
  }

  lemma TrimStartKeepsNonSpace(c: string)
    ensures NonSpace(TrimStart(c)) == NonSpace(c)
  {
    var d := TrimStart(c);
    TrimStartShape(c);
    var pre := c[..|c| - |d|];
    assert c == pre + d;
    assert forall j :: 0 <= j < |pre| ==> IsSpace(pre[j]);
    NonSpaceOfSpaces(pre);
    NonSpaceAppend(pre, d);
    assert NonSpace(c) == [] + NonSpace(d);
  }

  lemma TrimEndKeepsNonSpace(d: string)
    ensures NonSpace(TrimEnd(d)) == NonSpace(d)
  {
    var r := TrimEnd(d);
    TrimEndShape(d);
    assert d == r + d[|r|..];
    NonSpaceAppend(r, d[|r|..]);
    NonSpaceOfSpaces(d[|r|..]);
  }

  // ---------------------------------------------------------------------------------------
  // Words: the reference the white-space rewriting is stated against

  predicate NoSpace(w: string) {
    forall i :: 0 <= i < |w| ==> !IsSpace(w[i])
  }

  /** The length of the leading run of non-space characters. */
  function WordLength(t: string): (n: nat)
    ensures n <= |t| && NoSpace(t[..n])
    ensures n < |t| ==> IsSpace(t[n])
  {
    if t == [] || IsSpace(t[0]) then 0 else 1 + WordLength(t[1..])
  }

  /** The words of a text: its maximal runs of non-space characters, in order. */
  function Words(s: string): (ws: seq<string>)
    ensures forall k :: 0 <= k < |ws| ==> ws[k] != [] && NoSpace(ws[k])
    decreases |s|
  {
    if s == [] then []
    else if IsSpace(s[0]) then Words(s[1..])
    else
      var n := WordLength(s);
      [s[..n]] + Words(s[n..])
  }

  /** The words joined by single spaces, with one space for a leading and one for a trailing
      white-space run; a text of white space only is one space. */
  function SpacedWords(s: string): string {
    if Words(s) == [] then (if s == [] then "" else " ")
    else (if s != [] && IsSpace(s[0]) then " " else "") + Join(Words(s), " ")
         + (if s != [] && IsSpace(s[|s| - 1]) then " " else "")
  }

  /** A text and what is left after its leading white space have the same words. */
  lemma {:induction false} WordsAfterTrimStart(s: string)
    ensures Words(TrimStart(s)) == Words(s)
    decreases |s|
  {
    if s != [] && IsSpace(s[0]) {
      WordsAfterTrimStart(s[1..]);
    }
  }

  /** Collapsing passes a word through unchanged. */
  lemma {:induction false} CollapseWord(w: string, rest: string)
    requires NoSpace(w)
    ensures Collapse(w + rest) == w + Collapse(rest)
    decreases |w|
  {
    if w == [] {
      assert w + rest == rest;
    } else {
      assert (w + rest)[1..] == w[1..] + rest;
      assert NoSpace(w[1..]);
      CollapseWord(w[1..], rest);
      assert w == [w[0]] + w[1..];
    }
  }

  /** Joined words start and end with a word character. */
  lemma {:induction false} JoinWordsEnds(ws: seq<string>)
    requires forall k :: 0 <= k < |ws| ==> ws[k] != [] && NoSpace(ws[k])
    ensures var j := Join(ws, " "); ws != [] ==> j != [] && !IsSpace(j[0]) && !IsSpace(j[|j| - 1])
    decreases |ws|
  {
    if |ws| > 1 {
      JoinWordsEnds(ws[1..]);
      var j := Join(ws, " ");
      var r := Join(ws[1..], " ");
      assert j == ws[0] + " " + r;
      assert j[0] == ws[0][0] && j[|j| - 1] == r[|r| - 1];
    }
  }

  /** A text that starts with a word: the word, then the rest, both for the words and for
      the collapse. */
  lemma SplitWord(t: string) returns (n: nat)
    requires t != [] && !IsSpace(t[0])
    ensures 1 <= n <= |t| && NoSpace(t[..n]) && (n < |t| ==> IsSpace(t[n]))
    ensures Words(t) == [t[..n]] + Words(t[n..])
    ensures Collapse(t) == t[..n] + Collapse(t[n..])
  {
    n := WordLength(t);
    assert t == t[..n] + t[n..];
    CollapseWord(t[..n], t[n..]);
  }

  /** A text that starts with white space: one space, then whatever follows the run. */
  lemma SplitSpace(r: string)
    requires r != [] && IsSpace(r[0])
    ensures var u := TrimStart(r);
            && |u| < |r| && (u != [] ==> !IsSpace(u[0]))
            && Collapse(r) == [' '] + Collapse(u)
            && Words(r) == Words(u)
            && (u == [] ==> IsSpace(r[|r| - 1]))
            && (u != [] ==> r[|r| - 1] == u[|u| - 1])
  {
    TrimStartShape(r);
    WordsAfterTrimStart(r);
  }

  /** A text that starts with a word collapses to its words, plus one space if it ends in
      white space. */
  lemma {:induction false} CollapseFromWord(t: string)
    requires t != [] && !IsSpace(t[0])
    ensures Words(t) != []
    ensures Collapse(t) == Join(Words(t), " ") + (if IsSpace(t[|t| - 1]) then " " else "")
    decreases |t|
  {
    var n := SplitWord(t);
    var w, rest := t[..n], t[n..];
    if rest == [] {
      assert t[|t| - 1] == w[n - 1];
      JoinOne(w);
    } else {
      SplitSpace(rest);
      var u := TrimStart(rest);
      assert t[|t| - 1] == rest[|rest| - 1];
      if u == [] {
        JoinOne(w);
      } else {
        CollapseFromWord(u);
        JoinMore(w, Words(u), Collapse(u), if IsSpace(u[|u| - 1]) then " " else "");
      }
    }
  }

  /** A last word, with or without one trailing space. */
  lemma JoinOne(w: string)
    ensures w + Collapse([]) == Join([w] + Words([]), " ")
    ensures w + ([' '] + Collapse([])) == Join([w] + Words([]), " ") + " "
  {
    assert Words([]) == [] && Collapse([]) == [];
    assert [w] + [] == [w];
  }

  /** A word, one space, and the collapse of the words that follow. */
  lemma JoinMore(w: string, ws: seq<string>, c: string, tail: string)
    requires ws != [] && c == Join(ws, " ") + tail
    ensures w + ([' '] + c) == Join([w] + ws, " ") + tail
  {
    assert ([w] + ws)[1..] == ws;
  }

  /** `replace(/\s+/g, ' ')` against the word reference. */
  lemma CollapseSpacedWords(s: string)
    ensures Collapse(s) == SpacedWords(s)
  {
    if s != [] && IsSpace(s[0]) {
      SplitSpace(s);
      var u := TrimStart(s);
      if u == [] {
        assert Collapse(u) == [] && Words(u) == [];
      } else {
        CollapseFromWord(u);
        var j := Join(Words(u), " ");
        var tail := if IsSpace(u[|u| - 1]) then " " else "";
        assert Collapse(s) == [' '] + (j + tail);
        assert SpacedWords(s) == " " + j + tail;
      }
    } else if s != [] {
      CollapseFromWord(s);
    }
  }

  lemma {:induction false} TrimStartSpaces(pre: string, x: string)
    requires forall i :: 0 <= i < |pre| ==> IsSpace(pre[i])
    ensures TrimStart(pre + x) == TrimStart(x)
    decreases |pre|
  {
    if pre == [] {
      assert pre + x == x;
    } else {
      assert (pre + x)[1..] == pre[1..] + x;
      TrimStartSpaces(pre[1..], x);
    }
  }

  lemma {:induction false} TrimEndSpaces(x: string, post: string)
    requires forall i :: 0 <= i < |post| ==> IsSpace(post[i])
    ensures TrimEnd(x + post) == TrimEnd(x)
    decreases |post|
  {
    if post == [] {
      assert x + post == x;
    } else {
      var shorter := post[..|post| - 1];
      assert (x + post)[..|x + post| - 1] == x + shorter;
      TrimEndSpaces(x, shorter);
    }
  }

  /** Trimming drops white space around a text that starts and ends with a non-space. */
  lemma TrimAround(pre: string, m: string, post: string)
    requires forall i :: 0 <= i < |pre| ==> IsSpace(pre[i])
    requires forall i :: 0 <= i < |post| ==> IsSpace(post[i])
    requires m != [] ==> !IsSpace(m[0]) && !IsSpace(m[|m| - 1])
    ensures Trim(pre + m + post) == m
  {
    TrimStartSpaces(pre, m + post);
    assert pre + m + post == pre + (m + post);
    if m == [] {
      assert m + post == post && post + [] == post;
      TrimStartSpaces(post, []);
      assert TrimStart(post) == [];
    } else {
      assert TrimStart(m + post) == m + post;
      TrimEndSpaces(m, post);
    }
  }

  /** `normalizeText(s)` is the words of `s` joined by single spaces. */
  lemma NormalizeIsJoinedWords(s: string)
    ensures NormalizeText(Some(s)) == Join(Words(s), " ")
  {
    CollapseSpacedWords(s);
    var ws := Words(s);
    var j := Join(ws, " ");
    JoinWordsEnds(ws);
    if ws == [] {
      TrimAround(if s == [] then "" else " ", "", "");
      assert SpacedWords(s) == (if s == [] then "" else " ") + "" + "";
    } else {
      var pre := if s != [] && IsSpace(s[0]) then " " else "";
      var post := if s != [] && IsSpace(s[|s| - 1]) then " " else "";
      TrimAround(pre, j, post);
    }
  }

  /** `normalizeText`: collapse white-space runs to one space, then trim. */
  function NormalizeText(s: Option<string>): string {
    Trim(Collapse(s.GetOr("")))
  }

  /** A normalised text has single inner spaces only, keeps every non-space character of
      the input, in order, and is exactly the input's words joined by single spaces. */
  lemma NormalizeTextShape(s: Option<string>)
    ensures Normalised(NormalizeText(s))
    ensures NonSpace(NormalizeText(s)) == NonSpace(s.GetOr(""))
    ensures NormalizeText(s) == Join(Words(s.GetOr("")), " ")
  {
    NormalizeIsJoinedWords(s.GetOr(""));
    CollapseShape(s.GetOr(""));
    TrimCollapsed(Collapse(s.GetOr("")));
  }

  /** Normalising is idempotent: a normalised text is its own normal form. */
  lemma NormalizeIdempotent(s: Option<string>)
    ensures NormalizeText(Some(NormalizeText(s))) == NormalizeText(s)
  {
    NormalizeTextShape(s);
    NormalisedFixed(NormalizeText(s));
  }

  lemma NormalisedFixed(t: string)
    requires Normalised(t)
    ensures NormalizeText(Some(t)) == t
  {
    CollapseFixed(t);
    TrimUnchanged(t);
  }

  lemma {:induction false} CollapseFixed(t: string)
    requires PlainSpacesOnly(t) && NoDoubleSpace(t)
    ensures Collapse(t) == t
    decreases |t|
  {
    if t != [] {
      ShapeTail(t);
      CollapseFixed(t[1..]);
      assert t == [t[0]] + t[1..];
      if IsSpace(t[0]) {
        SpaceThenWord(t);
        assert Collapse(t) == [' '] + Collapse(TrimStart(t));
      } else {
        assert Collapse(t) == [t[0]] + Collapse(t[1..]);
      }
    }
  }

  /** In a collapsed text a space is followed by a non-space, so the run it starts is one long. */
  lemma SpaceThenWord(t: string)
    requires t != [] && IsSpace(t[0])
    requires PlainSpacesOnly(t) && NoDoubleSpace(t)
    ensures t[0] == ' ' && TrimStart(t) == t[1..]
  {
    assert t[0] == ' ';
    if |t| > 1 {
      assert !SpacePairAt(t, 0);
      assert t[1] != ' ';
      assert !IsSpace(t[1]);
      assert t[1..][0] == t[1];
    }
  }

  /** Keeps the parts that are not empty (`filter(Boolean)`). */
  function NonEmpty(ps: seq<string>): (r: seq<string>)
    ensures forall i :: 0 <= i < |r| ==> r[i] != "" && r[i] in ps
    ensures forall p :: p in ps && p != "" ==> p in r
  {
    if ps == [] then []
    else if ps[0] == "" then NonEmpty(ps[1..])
    else [ps[0]] + NonEmpty(ps[1..])
  }

  function NormalizeAll(parts: seq<Option<string>>): (r: seq<string>)
    ensures |r| == |parts|
  {
    if parts == [] then [] else [NormalizeText(parts[0])] + NormalizeAll(parts[1..])
  }

  lemma {:induction false} NormalizeAllAt(parts: seq<Option<string>>, i: nat)
    requires i < |parts|
    ensures NormalizeAll(parts)[i] == NormalizeText(parts[i])
    decreases i
  {
    if i > 0 { NormalizeAllAt(parts[1..], i - 1); }
  }

  /** `lcAll`: normalise every part, drop the empty ones, join with single spaces, lower-case. */
  function LcAll(parts: seq<Option<string>>): string {
    Lower(Join(NonEmpty(NormalizeAll(parts)), " "))
  }

  /** The content `lcAll` builds has no upper-case letter and is itself normalised. */
  lemma LcAllShape(parts: seq<Option<string>>)
    ensures IsLower(LcAll(parts)) && Normalised(LcAll(parts))
  {
    var ns := NormalizeAll(parts);
    forall i | 0 <= i < |ns| ensures Normalised(ns[i]) {
      NormalizeAllAt(parts, i);
      NormalizeTextShape(parts[i]);
    }
    var ps := NonEmpty(ns);
    JoinNormalised(ps);
    LowerNormalised(Join(ps, " "));
  }

  /** Every part's normal form, lower-cased, occurs in the content. */
  lemma LcAllContainsPart(parts: seq<Option<string>>, i: nat)
    requires i < |parts|
    ensures Contains(LcAll(parts), Lower(NormalizeText(parts[i])))
  {
    var p := NormalizeText(parts[i]);
    var ps := NonEmpty(NormalizeAll(parts));
    if p == "" {
      assert IsPrefix(Lower(p), LcAll(parts));
    } else {
      NormalizeAllAt(parts, i);
      assert p in NormalizeAll(parts);
      var j :| 0 <= j < |ps| && ps[j] == p;
      JoinContains(ps, " ", j);
      LowerContains(Join(ps, " "), p);
    }
  }

  /** A part that normalises to nothing leaves no trace, not even a separator. */
  lemma LcAllSkipsEmpty(parts: seq<Option<string>>)
    requires parts != [] && NormalizeText(parts[0]) == ""
    ensures LcAll(parts) == LcAll(parts[1..])
  {
    assert NormalizeAll(parts) == [""] + NormalizeAll(parts[1..]);
  }

  lemma {:induction false} JoinNormalised(ps: seq<string>)
    requires forall i :: 0 <= i < |ps| ==> ps[i] != "" && Normalised(ps[i])
    ensures Normalised(Join(ps, " "))
    ensures ps != [] ==> Join(ps, " ") != ""
    decreases |ps|
  {
    if |ps| > 1 {
      JoinNormalised(ps[1..]);
      NormalisedConcat(ps[0], Join(ps[1..], " "));
    }
  }

  /** Two normalised non-empty texts joined by one space make a normalised text. */
  lemma NormalisedConcat(a: string, b: string)
    requires a != "" && b != "" && Normalised(a) && Normalised(b)
    ensures Normalised(a + " " + b) && a + " " + b != ""
  {
    var r := a + " " + b;
    forall k | 0 <= k < |r| ensures !SpacePairAt(r, k) {
      if k < |a| - 1 {
        assert r[k] == a[k] && r[k + 1] == a[k + 1];
        assert !SpacePairAt(a, k);
      } else if k > |a| {
        assert r[k] == b[k - |a| - 1];
        if k + 1 < |r| {
          assert r[k + 1] == b[k - |a|];
          assert !SpacePairAt(b, k - |a| - 1);
        }
      } else if k == |a| - 1 {
        assert r[k] == a[|a| - 1];
      } else {
        assert r[k + 1] == b[0];
      }
    }
    forall k | 0 <= k < |r| && IsSpace(r[k]) ensures r[k] == ' ' {
      if k < |a| { assert r[k] == a[k]; }
      else if k > |a| { assert r[k] == b[k - |a| - 1]; }
    }
    assert r[0] == a[0] && r[|r| - 1] == b[|b| - 1];
  }

  /** Lower-casing moves no white space. */
  lemma LowerNormalised(s: string)
    requires Normalised(s)
    ensures Normalised(Lower(s)) && IsLower(Lower(s))
  {
    var r := Lower(s);
    forall k | 0 <= k < |r| ensures !SpacePairAt(r, k) {
      assert !SpacePairAt(s, k);
    }
  }

  lemma {:induction false} JoinContains(ps: seq<string>, sep: string, j: nat)
    requires j < |ps|
    ensures Contains(Join(ps, sep), ps[j])
    decreases |ps|
  {
    if |ps| == 1 {
      ContainsSelf(ps[0]);
    } else if j == 0 {
      ContainsSelf(ps[0]);
      ContainsInLeft(ps[0], sep + Join(ps[1..], sep), ps[0]);
      assert ps[0] + sep + Join(ps[1..], sep) == ps[0] + (sep + Join(ps[1..], sep));
    } else {
      JoinContains(ps[1..], sep, j - 1);
      ContainsInRight(ps[0] + sep, Join(ps[1..], sep), ps[j]);
    }
  }

  lemma LowerContains(s: string, sub: string)
    requires Contains(s, sub)
    ensures Contains(Lower(s), Lower(sub))
  {
    var i := ContainsWitness(s, sub);
    var t := Lower(s)[i..i + |sub|];
    assert forall k :: 0 <= k < |sub| ==> t[k] == LowerChar(s[i + k]);
    assert t == Lower(sub);
    ContainsAt(Lower(s), Lower(sub), i);
  }

  /** White space or one of the dashes `-`, `–`, `—`. */
  predicate IsDash(c: char) {
    IsSpace(c) || c == '-' || c == '–' || c == '—'
  }

  /** `s.replace(/^[\s\-–—]+/, '')`: the longest leading run of dash characters goes. */
  function DropDashStart(s: string): (r: string)
    ensures |r| <= |s|
  {
    if s != [] && IsDash(s[0]) then DropDashStart(s[1..]) else s
  }

  lemma {:induction false} DropDashStartShape(s: string)
    ensures DropDashStart(s) == s[|s| - |DropDashStart(s)|..]
    ensures forall i :: 0 <= i < |s| - |DropDashStart(s)| ==> IsDash(s[i])
    ensures DropDashStart(s) != [] ==> !IsDash(DropDashStart(s)[0])
    decreases |s|
  {
    if s != [] && IsDash(s[0]) {
      DropDashStartShape(s[1..]);
    }
  }

  /** `s.replace(/[\s\-–—]+$/, '')`: the longest trailing run of dash characters goes. */
  function DropDashEnd(s: string): (r: string)
    ensures |r| <= |s|
  {
    if s != [] && IsDash(s[|s| - 1]) then DropDashEnd(s[..|s| - 1]) else s
  }

  lemma {:induction false} DropDashEndShape(s: string)
    ensures DropDashEnd(s) == s[..|DropDashEnd(s)|]
    ensures forall i :: |DropDashEnd(s)| <= i < |s| ==> IsDash(s[i])
    ensures DropDashEnd(s) != [] ==> !IsDash(DropDashEnd(s)[|DropDashEnd(s)| - 1])
    decreases |s|
  {
    if s != [] && IsDash(s[|s| - 1]) {
      DropDashEndShape(s[..|s| - 1]);
    }
  }

  /** `cleanRole`: strip a trailing, then a leading, run of white space and dashes, then trim. */
  function CleanRole(raw: string): string {
    Trim(DropDashStart(DropDashEnd(raw)))
  }

  /** `cleanRole` keeps the longest inner slice that neither starts nor ends with white space
      or a dash: everything before and after it is dashes and white space. */
  lemma CleanRoleSlice(raw: string) returns (i: nat)
    ensures i + |CleanRole(raw)| <= |raw|
    ensures CleanRole(raw) == raw[i..i + |CleanRole(raw)|]
    ensures forall k :: 0 <= k < i ==> IsDash(raw[k])
    ensures forall k :: i + |CleanRole(raw)| <= k < |raw| ==> IsDash(raw[k])
    ensures CleanRole(raw) != [] ==>
              !IsDash(CleanRole(raw)[0]) && !IsDash(CleanRole(raw)[|CleanRole(raw)| - 1])
  {
    var e := DropDashEnd(raw);
    var d := DropDashStart(e);
    DropDashEndShape(raw);
    DropDashStartShape(e);
    i := |e| - |d|;
    DashFreeEnds(e, d);
    assert CleanRole(raw) == d;
    SliceOfSlice(raw, i, |d|);
    assert e == raw[..|e|];
    assert d == e[i..];
  }

  /** Stripping the leading dashes of a text with no trailing dash leaves both ends
      dash-free, so the final trim has nothing to do. */
  lemma DashFreeEnds(e: string, d: string)
    requires d == DropDashStart(e)
    requires e != [] ==> !IsDash(e[|e| - 1])
    ensures d != [] ==> !IsDash(d[0]) && !IsDash(d[|d| - 1])
    ensures Trim(d) == d
  {
    DropDashStartShape(e);
    if d != [] {
      assert d[|d| - 1] == e[|e| - 1];
    }
    TrimUnchanged(d);
  }

  /** Cleaning a cleaned role changes nothing. */
  lemma CleanRoleIdempotent(raw: string)
    ensures CleanRole(CleanRole(raw)) == CleanRole(raw)
  {
    var r := CleanRole(raw);
    var _ := CleanRoleSlice(raw);
    assert DropDashEnd(r) == r;
    assert DropDashStart(r) == r;
    TrimUnchanged(r);
  }
}
