/** Octet strings, white space, case, and cutting a text at the first occurrence of a separator. */
module Texts {
  import opened JsonValues

  type Octets = seq<bv8>

  /** `str::split_once`. */
  function SplitOnce<T(==)>(separator: T, t: seq<T>): (r: Option<(seq<T>, seq<T>)>)
    ensures r.Some? ==> |r.value.0| + 1 + |r.value.1| == |t|
  {
    if t == [] then None
    else if t[0] == separator then Some(([], t[1..]))
    else match SplitOnce(separator, t[1..])
      case None => None
      case Some((a, b)) => Some(([t[0]] + a, b))
  }

  /** `SplitOnce` cuts at the first separator. */
  lemma {:induction false} SplitOnceIff<T>(separator: T, t: seq<T>, a: seq<T>, b: seq<T>)
    ensures SplitOnce(separator, t) == Some((a, b)) <==> t == a + [separator] + b && separator !in a
  {
    if t != [] && t[0] != separator {
      if a != [] {
        SplitOnceIff(separator, t[1..], a[1..], b);
        assert a == [a[0]] + a[1..];
        if t == a + [separator] + b {
          assert t[1..] == a[1..] + [separator] + b;
        }
        if t[1..] == a[1..] + [separator] + b && t[0] == a[0] {
          assert t == [t[0]] + t[1..];
        }
      }
    } else if t != [] {
      if a == [] {
        assert [separator] + t[1..] == t;
        assert a + [separator] + b == [separator] + b;
        assert ([separator] + b)[1..] == b;
      } else if t == a + [separator] + b {
        assert t[0] == a[0];
      }
    }
  }

  /** Without the separator there is nothing to cut. */
  lemma {:induction false} SplitOnceNoneIff<T>(separator: T, t: seq<T>)
    ensures SplitOnce(separator, t) == None <==> separator !in t
  {
    if t != [] {
      SplitOnceNoneIff(separator, t[1..]);
      assert t == [t[0]] + t[1..];
    }
  }

  /** Unicode white space, as `str::trim` sees it. */
  predicate Whitespace(c: char) {
    || '\t' <= c <= '\r' || c == ' ' || c == '\U{85}' || c == '\U{A0}' || c == '\U{1680}' || '\U{2000}' <= c <= '\U{200A}'
    || c == '\U{2028}' || c == '\U{2029}' || c == '\U{202F}' || c == '\U{205F}' || c == '\U{3000}'
  }

  predicate Blank(text: string) { forall i | 0 <= i < |text| :: Whitespace(text[i]) }

  function TrimText(text: string): string {
    if text == "" then ""
    else if Whitespace(text[0]) then TrimText(text[1..])
    else if Whitespace(text[|text| - 1]) then TrimText(text[..|text| - 1])
    else text
  }

  function LowerText(text: string): string {
    seq(|text|, i requires 0 <= i < |text| => if 'A' <= text[i] <= 'Z' then text[i] - 'A' + 'a' else text[i])
  }

  // ---------------------------------------------------------------- character by character

  /** The code points with the Unicode property White_Space. */
  const WHITE_SPACE: set<char> := {
    '\U{9}', '\U{A}', '\U{B}', '\U{C}', '\U{D}', '\U{20}', '\U{85}', '\U{A0}', '\U{1680}',
    '\U{2000}', '\U{2001}', '\U{2002}', '\U{2003}', '\U{2004}', '\U{2005}', '\U{2006}', '\U{2007}', '\U{2008}', '\U{2009}', '\U{200A}',
    '\U{2028}', '\U{2029}', '\U{202F}', '\U{205F}', '\U{3000}'}

  lemma WhitespaceIff(c: char)
    ensures Whitespace(c) <==> c in WHITE_SPACE
  {
  }

  ghost predicate AllWhite(text: string) { forall i :: 0 <= i < |text| ==> text[i] in WHITE_SPACE }

  lemma BlankIff(text: string)
    ensures Blank(text) <==> AllWhite(text)
  {
    forall i | 0 <= i < |text| ensures Whitespace(text[i]) <==> text[i] in WHITE_SPACE { WhitespaceIff(text[i]); }
  }

  /** The text is that core with white space around it, and `lowered` is the core in lower case. */
  ghost predicate LowersTo(text: string, a: string, core: string, b: string, lowered: string) {
    && text == a + core + b && AllWhite(a) && AllWhite(b)
    && (core != "" ==> core[0] !in WHITE_SPACE && core[|core| - 1] !in WHITE_SPACE)
    && |lowered| == |core|
    && forall i :: 0 <= i < |core| ==> lowered[i] == if 'A' <= core[i] <= 'Z' then core[i] - 'A' + 'a' else core[i]
  }

  /** The core of a text, with what is trimmed off on both sides. */
  ghost predicate Trims(text: string, a: string, core: string, b: string) {
    text == a + core + b && Blank(a) && Blank(b) && (core != "" ==> !Whitespace(core[0]) && !Whitespace(core[|core| - 1]))
  }

  lemma {:induction false} TrimsInFront(c: char, text: string, a: string, core: string, b: string)
    requires Whitespace(c) && Trims(text, a, core, b)
    ensures Trims([c] + text, [c] + a, core, b)
  {
    assert [c] + (a + core + b) == ([c] + a) + core + b;
  }

  lemma {:induction false} TrimsBehind(c: char, text: string, a: string, core: string, b: string)
    requires Whitespace(c) && Trims(text, a, core, b)
    ensures Trims(text + [c], a, core, b + [c])
  {
    assert (a + core + b) + [c] == a + core + (b + [c]);
  }

  lemma {:induction false} TrimTextTrims(text: string) returns (a: string, b: string)
    ensures Trims(text, a, TrimText(text), b)
    decreases |text|
  {
    a, b := "", "";
    var n := |text|;
    if text != "" && Whitespace(text[0]) {
      a, b := TrimTextTrims(text[1..]);
      TrimsInFront(text[0], text[1..], a, TrimText(text), b);
      assert text == [text[0]] + text[1..];
      a := [text[0]] + a;
    } else if text != "" && Whitespace(text[n - 1]) {
      a, b := TrimTextTrims(text[..n - 1]);
      TrimsBehind(text[n - 1], text[..n - 1], a, TrimText(text), b);
      assert text == text[..n - 1] + [text[n - 1]];
      b := b + [text[n - 1]];
    } else {
      assert text == "" + text + "";
    }
  }

  lemma {:induction false} TrimTextIs(text: string) returns (a: string, b: string)
    ensures text == a + TrimText(text) + b && AllWhite(a) && AllWhite(b)
    ensures TrimText(text) != "" ==> TrimText(text)[0] !in WHITE_SPACE && TrimText(text)[|TrimText(text)| - 1] !in WHITE_SPACE
  {
    a, b := TrimTextTrims(text);
    BlankIff(a);
    BlankIff(b);
    var core := TrimText(text);
    if core != "" {
      WhitespaceIff(core[0]);
      WhitespaceIff(core[|core| - 1]);
    }
  }

  lemma {:induction false} TrimsFront(a: string, rest: string)
    requires Blank(a)
    ensures TrimText(a + rest) == TrimText(rest)
    decreases |a|
  {
    if a == "" {
      assert a + rest == rest;
    } else {
      assert (a + rest)[0] == a[0] && (a + rest)[1..] == a[1..] + rest;
      TrimsFront(a[1..], rest);
    }
  }

  lemma {:induction false} TrimsBack(core: string, b: string)
    requires Blank(b) && core != "" && !Whitespace(core[0]) && !Whitespace(core[|core| - 1])
    ensures TrimText(core + b) == core
    decreases |b|
  {
    if b == "" {
      assert core + b == core;
    } else {
      var text, last := core + b, |b| - 1;
      assert text[0] == core[0] && text[|text| - 1] == b[last] && text[..|text| - 1] == core + b[..last];
      TrimsBack(core, b[..last]);
    }
  }

  lemma {:induction false} TrimTextIsUnique(a: string, core: string, b: string)
    requires AllWhite(a) && AllWhite(b) && core != "" && core[0] !in WHITE_SPACE && core[|core| - 1] !in WHITE_SPACE
    ensures TrimText(a + core + b) == core
  {
    BlankIff(a);
    BlankIff(b);
    WhitespaceIff(core[0]);
    WhitespaceIff(core[|core| - 1]);
    assert a + core + b == a + (core + b);
    TrimsFront(a, core + b);
    TrimsBack(core, b);
  }

  /** Trimming and lowering, in terms of the text. */
  lemma LoweredIff(text: string, lowered: string)
    requires lowered != ""
    ensures LowerText(TrimText(text)) == lowered <==> exists a, core, b :: LowersTo(text, a, core, b, lowered)
  {
    if LowerText(TrimText(text)) == lowered {
      var a, b := TrimTextIs(text);
      assert LowersTo(text, a, TrimText(text), b, lowered);
    }
    forall a, core, b | LowersTo(text, a, core, b, lowered) ensures LowerText(TrimText(text)) == lowered {
      TrimTextIsUnique(a, core, b);
    }
  }
}
