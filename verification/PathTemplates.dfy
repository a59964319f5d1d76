/** Endpoint paths as OpenAPI path templates. */
module PathTemplates {
  import opened JsonValues
  import opened Texts

  /** A template and the names in it, in order. */
  type Template = (string, seq<string>)

  /** The name a placeholder declares: a leading `*` marks a catch-all and is dropped, once. */
  function Stripped(declared: string): string {
    if declared != "" && declared[0] == '*' then declared[1..] else declared
  }

  predicate GoodName(name: string) { name != "" && forall i | 0 <= i < |name| :: !Whitespace(name[i]) }

  lemma GoodNameIff(name: string)
    ensures GoodName(name) <==> name != "" && forall i :: 0 <= i < |name| ==> name[i] !in WHITE_SPACE
  {
    forall i | 0 <= i < |name| ensures Whitespace(name[i]) <==> name[i] in WHITE_SPACE { WhitespaceIff(name[i]); }
  }

  /** What remains to be rendered, after the names already seen. */
  function Render(remainder: string, names: seq<string>): Result<Template>
    decreases |remainder|
  {
    match SplitOnce('{', remainder)
    case None => if '}' in remainder then Err else Ok((remainder, names))
    case Some((before, after)) =>
      match SplitOnce('}', after)
      case None => Err
      case Some((declared, rest)) =>
        var name := Stripped(declared);
        if '{' in declared || !GoodName(name) || name in names then Err
        else Prefixed(before + ['{'] + name + ['}'], Render(rest, names + [name]))
  }

  function Prefixed(prefix: string, template: Result<Template>): Result<Template> {
    match template case Err => Err case Ok((text, names)) => Ok((prefix + text, names))
  }

  predicate Absolute(path: string) { path != "" && path[0] == '/' && '?' !in path && '#' !in path }

  function TemplateOf(path: string): Result<Template> { if Absolute(path) then Render(path, []) else Err }

  /** `openapi_path`. */
  method OpenApiPath(path: string) returns (r: Result<Template>)
    ensures r == TemplateOf(path)
  {
    if !Absolute(path) {
      return Err;
    }
    var rendered, parameters, remainder := "", [], path;
    var next := SplitOnce('{', remainder);
    PrefixedEmpty(Render(path, []));
    while next.Some?
      invariant next == SplitOnce('{', remainder)
      invariant Render(path, []) == Prefixed(rendered, Render(remainder, parameters))
      decreases |remainder|
    {
      var (before, after) := next.value;
      var closed := SplitOnce('}', after);
      if closed.None? {
        return Err;
      }
      var (declared, rest) := closed.value;
      var name := Stripped(declared);
      if '{' in declared || !GoodName(name) || name in parameters {
        return Err;
      }
      PrefixedTwice(rendered, before + ['{'] + name + ['}'], Render(rest, parameters + [name]));
      parameters := parameters + [name];
      rendered := rendered + (before + ['{'] + name + ['}']);
      remainder := rest;
      next := SplitOnce('{', remainder);
    }
    if '}' in remainder {
      return Err;
    }
    r := Ok((rendered + remainder, parameters));
  }

  lemma PrefixedTwice(a: string, b: string, template: Result<Template>)
    ensures Prefixed(a, Prefixed(b, template)) == Prefixed(a + b, template)
  {
    if template.Ok? {
      assert a + (b + template.value.0) == (a + b) + template.value.0;
    }
  }

  lemma PrefixedEmpty(template: Result<Template>)
    ensures Prefixed("", template) == template
  {
    if template.Ok? {
      assert "" + template.value.0 == template.value.0;
    }
  }

  // ---------------------------------------------------------------- one step, read backwards

  /** How a successful rendering with a placeholder decomposes. */
  lemma RenderStep(remainder: string, names: seq<string>) returns (before: string, declared: string, rest: string)
    requires Render(remainder, names).Ok? && '{' in remainder
    ensures remainder == before + ['{'] + declared + ['}'] + rest
    ensures '{' !in before && '{' !in declared && '}' !in declared
    ensures var name := Stripped(declared);
            && GoodName(name) && name !in names
            && Render(rest, names + [name]).Ok?
            && Render(remainder, names) == Prefixed(before + ['{'] + name + ['}'], Render(rest, names + [name]))
  {
    SplitOnceNoneIff('{', remainder);
    var cut := SplitOnce('{', remainder).value;
    before := cut.0;
    var after := cut.1;
    SplitOnceIff('{', remainder, before, after);
    var closed := SplitOnce('}', after).value;
    declared, rest := closed.0, closed.1;
    SplitOnceIff('}', after, declared, rest);
    assert before + ['{'] + (declared + ['}'] + rest) == before + ['{'] + declared + ['}'] + rest;
  }

  /** And how a text of that form renders. */
  lemma RenderOfStep(before: string, declared: string, rest: string, names: seq<string>)
    requires '{' !in before && '{' !in declared && '}' !in declared
    ensures var name := Stripped(declared);
            Render(before + ['{'] + declared + ['}'] + rest, names) ==
              if GoodName(name) && name !in names then Prefixed(before + ['{'] + name + ['}'], Render(rest, names + [name])) else Err
  {
    var after := declared + ['}'] + rest;
    var remainder := before + ['{'] + declared + ['}'] + rest;
    assert remainder == before + ['{'] + after;
    SplitOnceIff('{', remainder, before, after);
    SplitOnceIff('}', after, declared, rest);
  }

  lemma RenderOfTail(remainder: string, names: seq<string>)
    requires '{' !in remainder
    ensures Render(remainder, names) == if '}' in remainder then Err else Ok((remainder, names))
  {
    SplitOnceNoneIff('{', remainder);
  }

  // ---------------------------------------------------------------- idempotence

  ghost predicate Starred(name: string) { name != "" && name[0] == '*' }

  /** The names found are appended to those seen; all are good and none repeats. */
  lemma {:induction false} RenderedNames(remainder: string, names: seq<string>)
    requires Render(remainder, names).Ok?
    ensures var found := Render(remainder, names).value.1;
            && names <= found
            && (forall i :: |names| <= i < |found| ==> GoodName(found[i]) && found[i] !in found[..i])
    decreases |remainder|
  {
    if '{' in remainder {
      var before, declared, rest := RenderStep(remainder, names);
      RenderedNames(rest, names + [Stripped(declared)]);
      var found := Render(rest, names + [Stripped(declared)]).value.1;
      assert found[..|names|] == names && found[|names|] == Stripped(declared);
    } else {
      RenderOfTail(remainder, names);
    }
  }

  /** Rendering a rendered template again gives the same template exactly when no stripped name
      starts with another `*`. */
  lemma {:induction false} RenderAgainIff(remainder: string, names: seq<string>)
    requires Render(remainder, names).Ok?
    ensures var (text, found) := Render(remainder, names).value;
            Render(text, names) == Ok((text, found)) <==> forall i :: |names| <= i < |found| ==> !Starred(found[i])
    decreases |remainder|
  {
    var (text, found) := Render(remainder, names).value;
    if '{' !in remainder {
      RenderOfTail(remainder, names);
      return;
    }
    var before, declared, rest := RenderStep(remainder, names);
    var name := Stripped(declared);
    var (tail, more) := Render(rest, names + [name]).value;
    RenderedNames(rest, names + [name]);
    RenderAgainIff(rest, names + [name]);
    assert text == before + ['{'] + name + ['}'] + tail && found == more;
    assert found[|names|] == name;
    RenderOfStep(before, name, tail, names);
    if Starred(name) {
      ReadsAnotherName(before, name, tail, names);
    } else {
      SamePrefix(before + ['{'] + name + ['}'], tail, Render(tail, names + [name]), more);
    }
  }

  lemma SamePrefix(prefix: string, tail: string, template: Result<Template>, names: seq<string>)
    ensures Prefixed(prefix, template) == Ok((prefix + tail, names)) <==> template == Ok((tail, names))
  {
    if template.Ok? && prefix + template.value.0 == prefix + tail {
      assert (prefix + template.value.0)[|prefix|..] == template.value.0;
      assert (prefix + tail)[|prefix|..] == tail;
    }
  }

  lemma ReadsAnotherName(before: string, name: string, tail: string, names: seq<string>)
    requires '{' !in before && '{' !in name && '}' !in name && Starred(name)
    ensures var again := Render(before + ['{'] + name + ['}'] + tail, names);
            again.Ok? ==> |again.value.1| > |names| && again.value.1[|names|] != name
  {
    RenderOfStep(before, name, tail, names);
    var again := Render(before + ['{'] + name + ['}'] + tail, names);
    if again.Ok? {
      RenderedNames(tail, names + [Stripped(name)]);
      assert again.value.1[|names|] == Stripped(name);
      assert |Stripped(name)| < |name|;
    }
  }

  /** Rendering only copies and drops characters. */
  lemma {:induction false} RenderedCharacters(remainder: string, names: seq<string>, c: char)
    requires Render(remainder, names).Ok? && c !in remainder
    ensures c !in Render(remainder, names).value.0
    decreases |remainder|
  {
    if '{' in remainder {
      var before, declared, rest := RenderStep(remainder, names);
      RenderedCharacters(rest, names + [Stripped(declared)], c);
    } else {
      RenderOfTail(remainder, names);
    }
  }

  lemma RenderedIsAbsolute(path: string)
    requires TemplateOf(path).Ok?
    ensures Absolute(TemplateOf(path).value.0)
  {
    RenderedCharacters(path, [], '?');
    RenderedCharacters(path, [], '#');
    if '{' in path {
      var before, declared, rest := RenderStep(path, []);
      assert path[0] == (before + ['{'] + declared + ['}'] + rest)[0];
      assert before != "" && before[0] == '/';
    } else {
      RenderOfTail(path, []);
    }
  }

  // ---------------------------------------------------------------- exactly which paths are accepted

  /** A placeholder with the literal text in front of it. */
  datatype Piece = Piece(literal: string, declared: string)

  function Written(piece: Piece): string { piece.literal + ['{'] + piece.declared + ['}'] }

  /** The path that pieces and a last literal make up. */
  function Joined(pieces: seq<Piece>, tail: string): string {
    if pieces == [] then tail else Written(pieces[0]) + Joined(pieces[1..], tail)
  }

  function Cleaned(pieces: seq<Piece>): seq<Piece> {
    seq(|pieces|, i requires 0 <= i < |pieces| => Piece(pieces[i].literal, Stripped(pieces[i].declared)))
  }

  function NamesOf(pieces: seq<Piece>): seq<string> {
    seq(|pieces|, i requires 0 <= i < |pieces| => Stripped(pieces[i].declared))
  }

  predicate GoodPiece(piece: Piece) {
    '{' !in piece.literal && '{' !in piece.declared && '}' !in piece.declared && GoodName(Stripped(piece.declared))
  }

  /** No opening brace in the literal; in the placeholder no brace, and after one star, if there is one,
      a name that is not empty and has no white space. */
  lemma GoodPieceIff(piece: Piece)
    ensures GoodPiece(piece) <==>
              var name := if piece.declared != "" && piece.declared[0] == '*' then piece.declared[1..] else piece.declared;
              && '{' !in piece.literal && '{' !in piece.declared && '}' !in piece.declared
              && name != "" && forall i :: 0 <= i < |name| ==> name[i] !in WHITE_SPACE
  {
    GoodNameIff(Stripped(piece.declared));
  }

  /** Literals without an opening brace, a last literal without any brace, good names, none repeated. */
  ghost predicate WellFormed(pieces: seq<Piece>, tail: string, seen: seq<string>) {
    && (forall i :: 0 <= i < |pieces| ==> GoodPiece(pieces[i]))
    && '{' !in tail && '}' !in tail
    && (forall i :: 0 <= i < |pieces| ==> Stripped(pieces[i].declared) !in seen)
    && (forall i, j :: 0 <= i < j < |pieces| ==> Stripped(pieces[i].declared) != Stripped(pieces[j].declared))
  }

  lemma {:induction false} WellFormedTail(pieces: seq<Piece>, tail: string, seen: seq<string>)
    requires pieces != []
    ensures WellFormed(pieces, tail, seen) <==>
              && GoodPiece(pieces[0]) && Stripped(pieces[0].declared) !in seen
              && WellFormed(pieces[1..], tail, seen + [Stripped(pieces[0].declared)])
  {
    var rest, name := pieces[1..], Stripped(pieces[0].declared);
    if WellFormed(rest, tail, seen + [name]) && GoodPiece(pieces[0]) && name !in seen {
      forall i | 0 < i < |pieces|
        ensures GoodPiece(pieces[i]) && Stripped(pieces[i].declared) !in seen && Stripped(pieces[i].declared) != name
      {
        assert pieces[i] == rest[i - 1];
      }
      forall i, j | 0 <= i < j < |pieces| ensures Stripped(pieces[i].declared) != Stripped(pieces[j].declared) {
        if i > 0 {
          assert pieces[i] == rest[i - 1] && pieces[j] == rest[j - 1];
        }
      }
    }
  }

  lemma CleanedTail(pieces: seq<Piece>, seen: seq<string>)
    requires pieces != []
    ensures Cleaned(pieces)[0] == Piece(pieces[0].literal, Stripped(pieces[0].declared))
    ensures Cleaned(pieces)[1..] == Cleaned(pieces[1..])
    ensures seen + [Stripped(pieces[0].declared)] + NamesOf(pieces[1..]) == seen + NamesOf(pieces)
  {
  }

  /** Well-formed pieces are accepted, with their names stripped. */
  lemma {:induction false} WellFormedIsAccepted(pieces: seq<Piece>, tail: string, seen: seq<string>)
    requires WellFormed(pieces, tail, seen)
    ensures Render(Joined(pieces, tail), seen) == Ok((Joined(Cleaned(pieces), tail), seen + NamesOf(pieces)))
    decreases |pieces|
  {
    if pieces == [] {
      RenderOfTail(tail, seen);
      assert seen + NamesOf(pieces) == seen;
    } else {
      WellFormedTail(pieces, tail, seen);
      var piece, rest := pieces[0], pieces[1..];
      var name := Stripped(piece.declared);
      WellFormedIsAccepted(rest, tail, seen + [name]);
      RenderOfStep(piece.literal, piece.declared, Joined(rest, tail), seen);
      CleanedTail(pieces, seen);
    }
  }

  /** Whatever is accepted is made of well-formed pieces. */
  lemma {:induction false} AcceptedIsWellFormed(remainder: string, seen: seq<string>) returns (pieces: seq<Piece>, tail: string)
    requires Render(remainder, seen).Ok?
    ensures WellFormed(pieces, tail, seen) && remainder == Joined(pieces, tail)
    decreases |remainder|
  {
    if '{' in remainder {
      var before, declared, rest := RenderStep(remainder, seen);
      var others;
      others, tail := AcceptedIsWellFormed(rest, seen + [Stripped(declared)]);
      pieces := [Piece(before, declared)] + others;
      assert pieces[1..] == others;
      WellFormedTail(pieces, tail, seen);
    } else {
      RenderOfTail(remainder, seen);
      pieces, tail := [], remainder;
    }
  }

  /** A path is accepted with a template and names exactly when it is absolute and made of well-formed
      pieces; the template is those pieces with stripped names. */
  lemma AcceptedIff(path: string, text: string, names: seq<string>)
    ensures TemplateOf(path) == Ok((text, names)) <==>
              && path != "" && path[0] == '/' && '?' !in path && '#' !in path
              && exists pieces, tail ::
                   WellFormed(pieces, tail, []) && path == Joined(pieces, tail) && text == Joined(Cleaned(pieces), tail) && names == NamesOf(pieces)
  {
    var none: seq<string> := [];
    if TemplateOf(path) == Ok((text, names)) {
      var pieces, tail := AcceptedIsWellFormed(path, []);
      WellFormedIsAccepted(pieces, tail, []);
      assert none + NamesOf(pieces) == NamesOf(pieces);
    }
    forall pieces, tail | Absolute(path) && WellFormed(pieces, tail, []) && path == Joined(pieces, tail)
                          && text == Joined(Cleaned(pieces), tail) && names == NamesOf(pieces)
      ensures TemplateOf(path) == Ok((text, names))
    {
      WellFormedIsAccepted(pieces, tail, []);
      assert none + NamesOf(pieces) == NamesOf(pieces);
    }
  }

  // ---------------------------------------------------------------- balanced braces

  /** Every opening brace is closed and every closing brace has been opened, `depth` being open already. */
  predicate Closes(text: string, depth: nat) {
    if text == "" then depth == 0
    else if text[0] == '{' then Closes(text[1..], depth + 1)
    else if text[0] == '}' then depth > 0 && Closes(text[1..], depth - 1)
    else Closes(text[1..], depth)
  }

  predicate Balanced(text: string) { Closes(text, 0) }

  function Count(c: char, text: string): nat {
    if text == "" then 0 else (if text[0] == c then 1 else 0) + Count(c, text[1..])
  }

  lemma {:induction false} CountJoins(c: char, a: string, b: string)
    ensures Count(c, a + b) == Count(c, a) + Count(c, b)
  {
    if a == "" {
      assert a + b == b;
    } else {
      assert (a + b)[1..] == a[1..] + b;
      CountJoins(c, a[1..], b);
    }
  }

  lemma {:induction false} CountIsZeroIff(c: char, text: string)
    ensures Count(c, text) == 0 <==> c !in text
  {
    if text != "" {
      CountIsZeroIff(c, text[1..]);
      assert text == [text[0]] + text[1..];
    }
  }

  /** Text without opening braces closes nothing it does not have to. */
  lemma {:induction false} LiteralCloses(literal: string, rest: string, depth: nat)
    requires '{' !in literal
    ensures Closes(literal + rest, depth) <==> Count('}', literal) <= depth && Closes(rest, depth - Count('}', literal))
    decreases |literal|
  {
    if literal == "" {
      assert literal + rest == rest;
    } else {
      assert (literal + rest)[1..] == literal[1..] + rest;
      if literal[0] != '}' {
        LiteralCloses(literal[1..], rest, depth);
      } else if depth > 0 {
        LiteralCloses(literal[1..], rest, depth - 1);
      }
    }
  }

  lemma {:induction false} PieceCloses(piece: Piece, rest: string)
    requires GoodPiece(piece)
    ensures Closes(Written(piece) + rest, 0) <==> '}' !in piece.literal && Closes(rest, 0)
  {
    var inner := piece.declared + (['}'] + rest);
    assert Written(piece) + rest == piece.literal + (['{'] + inner);
    LiteralCloses(piece.literal, ['{'] + inner, 0);
    CountIsZeroIff('}', piece.literal);
    assert (['{'] + inner)[1..] == inner;
    LiteralCloses(piece.declared, ['}'] + rest, 1);
    CountIsZeroIff('}', piece.declared);
    assert (['}'] + rest)[1..] == rest;
  }

  lemma {:induction false} PieceCounts(piece: Piece)
    requires GoodPiece(piece)
    ensures Count('{', Written(piece)) == 1 && Count('}', Written(piece)) == 1 + Count('}', piece.literal)
  {
    forall c ensures Count(c, Written(piece)) == Count(c, piece.literal) + Count(c, "{") + Count(c, piece.declared) + Count(c, "}") {
      CountJoins(c, piece.literal + ['{'] + piece.declared, ['}']);
      CountJoins(c, piece.literal + ['{'], piece.declared);
      CountJoins(c, piece.literal, ['{']);
    }
    CountIsZeroIff('{', piece.literal);
    CountIsZeroIff('{', piece.declared);
    CountIsZeroIff('}', piece.declared);
    CountOfBraces();
  }

  lemma CountOfBraces()
    ensures Count('{', "{") == 1 && Count('{', "}") == 0 && Count('}', "{") == 0 && Count('}', "}") == 1
  {
    assert "{"[1..] == "" && "}"[1..] == "";
  }

  /** No literal in front of a placeholder has a closing brace. */
  ghost predicate NoneStray(pieces: seq<Piece>) { forall i :: 0 <= i < |pieces| ==> '}' !in pieces[i].literal }

  lemma {:induction false} JoinedBalances(pieces: seq<Piece>, tail: string, seen: seq<string>)
    requires WellFormed(pieces, tail, seen)
    ensures Closes(Joined(pieces, tail), 0) <==> NoneStray(pieces)
    ensures Count('}', Joined(pieces, tail)) >= Count('{', Joined(pieces, tail))
    ensures Count('}', Joined(pieces, tail)) == Count('{', Joined(pieces, tail)) <==> NoneStray(pieces)
    decreases |pieces|
  {
    if pieces == [] {
      LiteralCloses(tail, "", 0);
      assert tail + "" == tail;
      CountIsZeroIff('{', tail);
      CountIsZeroIff('}', tail);
    } else {
      WellFormedTail(pieces, tail, seen);
      var rest := Joined(pieces[1..], tail);
      JoinedBalances(pieces[1..], tail, seen + [Stripped(pieces[0].declared)]);
      PieceCloses(pieces[0], rest);
      PieceCounts(pieces[0]);
      CountJoins('{', Written(pieces[0]), rest);
      CountJoins('}', Written(pieces[0]), rest);
      CountIsZeroIff('}', pieces[0].literal);
      assert NoneStray(pieces) <==> '}' !in pieces[0].literal && NoneStray(pieces[1..]) by {
        forall i | 0 < i < |pieces| ensures pieces[i] == pieces[1..][i - 1] {}
      }
    }
  }

  /** An accepted path never has too few closing braces, and it is balanced exactly when it does not
      have too many: when no literal in front of a placeholder has one. */
  lemma AcceptedIsBalancedIff(path: string)
    requires TemplateOf(path).Ok?
    ensures Count('}', path) >= Count('{', path)
    ensures Balanced(path) <==> Count('}', path) == Count('{', path)
  {
    var pieces, tail := AcceptedIsWellFormed(path, []);
    JoinedBalances(pieces, tail, []);
  }

  /** "Only balanced paths are accepted" is false: a stray closing brace in front of a placeholder is
      not noticed; after the last placeholder it is. */
  lemma StrayTerminatorIsAccepted(literal: string, name: string)
    requires '}' in literal && GoodPiece(Piece(literal, name)) && Absolute(literal + ['{'] + name + ['}'])
    ensures var path := literal + ['{'] + name + ['}'];
            TemplateOf(path).Ok? && !Balanced(path) && TemplateOf(path + "}").Err?
  {
    var piece := Piece(literal, name);
    var path := Written(piece);
    assert path + "" == path;
    RenderOfStep(literal, name, "", []);
    RenderOfTail("", [] + [Stripped(name)]);
    PieceCloses(piece, "");
    RenderOfStep(literal, name, "}", []);
    RenderOfTail("}", [] + [Stripped(name)]);
  }

  lemma StrayTerminatorExample()
    ensures TemplateOf("/a}{x}").Ok? && !Balanced("/a}{x}")
  {
    assert "/a}"[2] == '}';
    assert "/a}" + ['{'] + "x" + ['}'] == "/a}{x}";
    StrayTerminatorIsAccepted("/a}", "x");
  }

  // ---------------------------------------------------------------- idempotence, in terms of the path

  /** An opening brace followed by two stars. */
  predicate DoubleStarred(text: string) {
    text != "" && ((|text| >= 3 && text[0] == '{' && text[1] == '*' && text[2] == '*') || DoubleStarred(text[1..]))
  }

  lemma {:induction false} LiteralIsSkipped(literal: string, rest: string)
    requires '{' !in literal
    ensures DoubleStarred(literal + rest) <==> DoubleStarred(rest)
  {
    if literal == "" {
      assert literal + rest == rest;
    } else {
      assert (literal + rest)[0] == literal[0] && (literal + rest)[1..] == literal[1..] + rest;
      LiteralIsSkipped(literal[1..], rest);
    }
  }

  lemma {:induction false} PieceIsStarredIff(piece: Piece, rest: string)
    requires GoodPiece(piece)
    ensures DoubleStarred(Written(piece) + rest) <==> Starred(Stripped(piece.declared)) || DoubleStarred(rest)
  {
    var inner := piece.declared + ['}'] + rest;
    assert Written(piece) + rest == piece.literal + (['{'] + inner);
    LiteralIsSkipped(piece.literal, ['{'] + inner);
    assert (['{'] + inner)[1..] == inner;
    assert inner == (piece.declared + ['}']) + rest;
    LiteralIsSkipped(piece.declared + ['}'], rest);
    assert |piece.declared| >= 1 && inner[0] == piece.declared[0];
    if |piece.declared| >= 2 {
      assert inner[1] == piece.declared[1];
    } else {
      assert inner[1] == '}';
    }
  }

  lemma {:induction false} JoinedIsStarredIff(pieces: seq<Piece>, tail: string, seen: seq<string>)
    requires WellFormed(pieces, tail, seen)
    ensures DoubleStarred(Joined(pieces, tail)) <==> exists i :: 0 <= i < |pieces| && Starred(NamesOf(pieces)[i])
    decreases |pieces|
  {
    if pieces == [] {
      LiteralIsSkipped(tail, "");
      assert tail + "" == tail;
    } else {
      WellFormedTail(pieces, tail, seen);
      var rest := pieces[1..];
      JoinedIsStarredIff(rest, tail, seen + [Stripped(pieces[0].declared)]);
      PieceIsStarredIff(pieces[0], Joined(rest, tail));
      assert NamesOf(pieces)[0] == Stripped(pieces[0].declared);
      assert forall i :: 0 <= i < |rest| ==> NamesOf(rest)[i] == NamesOf(pieces)[i + 1];
      if i :| 0 <= i < |rest| && Starred(NamesOf(rest)[i]) {
        assert Starred(NamesOf(pieces)[i + 1]);
      }
      if i :| 0 <= i < |pieces| && Starred(NamesOf(pieces)[i]) {
        assert i > 0 ==> NamesOf(rest)[i - 1] == NamesOf(pieces)[i];
      }
    }
  }

  /** `openapi_path` is idempotent exactly on the paths in which no opening brace is followed by two
      stars. */
  lemma TemplateIsIdempotentIff(path: string)
    requires TemplateOf(path).Ok?
    ensures TemplateOf(TemplateOf(path).value.0) == TemplateOf(path) <==> !DoubleStarred(path)
  {
    var (text, names) := TemplateOf(path).value;
    RenderedIsAbsolute(path);
    RenderAgainIff(path, []);
    var pieces, tail := AcceptedIsWellFormed(path, []);
    var none: seq<string> := [];
    WellFormedIsAccepted(pieces, tail, []);
    assert names == none + NamesOf(pieces) && none + NamesOf(pieces) == NamesOf(pieces);
    JoinedIsStarredIff(pieces, tail, []);
  }

  /** It is not idempotent on every path it accepts. */
  lemma DoubleStarIsStrippedAgain()
    ensures TemplateOf("/{**x}").Ok? && TemplateOf(TemplateOf("/{**x}").value.0) != TemplateOf("/{**x}")
  {
    var path := "/" + ['{'] + "**x" + ['}'] + "";
    assert path == "/{**x}";
    RenderOfStep("/", "**x", "", []);
    RenderOfTail("", [] + ["*x"]);
    assert "**x"[1..] == "*x";
    assert path[1..][0] == '{' && path[1..][1] == '*' && path[1..][2] == '*';
    assert DoubleStarred(path[1..]);
    assert DoubleStarred(path);
    TemplateIsIdempotentIff(path);
  }
}
