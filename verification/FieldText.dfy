/** Octet strings as they stand in HTTP field values.

    Values that `to_str` refuses make a request bad; in the others the only white space is space
    and tab. */
module FieldText {
  import opened Texts

  const TAB: bv8 := 0x09
  const SPACE: bv8 := 0x20
  const QUOTE: bv8 := 0x22
  const COMMA: bv8 := 0x2c
  const SEMICOLON: bv8 := 0x3b
  const EQUALS: bv8 := 0x3d

  /** `HeaderValue::to_str` succeeds. */
  predicate Readable(t: Octets) { forall i | 0 <= i < |t| :: t[i] == TAB || 0x20 <= t[i] <= 0x7e }

  predicate White(b: bv8) { b == SPACE || b == TAB }

  function TrimStart(t: Octets): Octets { if t != [] && White(t[0]) then TrimStart(t[1..]) else t }

  function TrimEnd(t: Octets): Octets { if t != [] && White(t[|t| - 1]) then TrimEnd(t[..|t| - 1]) else t }

  function Trim(t: Octets): Octets { TrimEnd(TrimStart(t)) }

  /** `str::split` on one octet. */
  function Split(separator: bv8, t: Octets): (r: seq<Octets>)
    ensures |r| >= 1
  {
    if t == [] then [[]]
    else if t[0] == separator then [[]] + Split(separator, t[1..])
    else
      var rest := Split(separator, t[1..]);
      [[t[0]] + rest[0]] + rest[1..]
  }

  /** `to_ascii_lowercase` and `to_ascii_uppercase`. */
  function Lower(t: Octets): Octets { seq(|t|, i requires 0 <= i < |t| => if 0x41 <= t[i] <= 0x5a then t[i] + 0x20 else t[i]) }

  function Upper(t: Octets): Octets { seq(|t|, i requires 0 <= i < |t| => if 0x61 <= t[i] <= 0x7a then t[i] - 0x20 else t[i]) }

  function Text(t: Octets): string { seq(|t|, i requires 0 <= i < |t| => t[i] as char) }

  /** The trimmed, non-empty pieces. */
  function Trimmed(pieces: seq<Octets>): seq<Octets> {
    if pieces == [] then []
    else (if Trim(pieces[0]) == [] then [] else [Trim(pieces[0])]) + Trimmed(pieces[1..])
  }

  // ---------------------------------------------------------------- trimming

  predicate AllWhite(t: Octets) { forall i | 0 <= i < |t| :: White(t[i]) }

  lemma {:induction false} TrimStartIs(t: Octets) returns (a: Octets)
    ensures t == a + TrimStart(t) && AllWhite(a)
    ensures TrimStart(t) == [] || !White(TrimStart(t)[0])
  {
    a := [];
    if t != [] && White(t[0]) {
      var rest := TrimStartIs(t[1..]);
      a := [t[0]] + rest;
    }
  }

  lemma {:induction false} TrimEndIs(t: Octets) returns (b: Octets)
    ensures t == TrimEnd(t) + b && AllWhite(b)
    ensures TrimEnd(t) == [] || !White(TrimEnd(t)[|TrimEnd(t)| - 1])
  {
    b := [];
    if t != [] && White(t[|t| - 1]) {
      var rest := TrimEndIs(t[..|t| - 1]);
      b := rest + [t[|t| - 1]];
    }
  }

  /** Trimming takes spaces and tabs off both ends, all of them and nothing else. */
  lemma {:induction false} TrimIs(t: Octets) returns (a: Octets, b: Octets)
    ensures t == a + Trim(t) + b
    ensures forall i :: 0 <= i < |a| ==> a[i] == 0x20 || a[i] == 0x09
    ensures forall i :: 0 <= i < |b| ==> b[i] == 0x20 || b[i] == 0x09
    ensures Trim(t) != [] ==> Trim(t)[0] != 0x20 && Trim(t)[0] != 0x09 && Trim(t)[|Trim(t)| - 1] != 0x20 && Trim(t)[|Trim(t)| - 1] != 0x09
  {
    a := TrimStartIs(t);
    var rest := TrimStart(t);
    b := TrimEndIs(rest);
    var core := TrimEnd(rest);
    Reassociate(t, a, rest, core, b);
    if core != [] {
      assert rest[0] == (core + b)[0];
    }
  }

  lemma {:induction false} Reassociate(t: Octets, a: Octets, rest: Octets, core: Octets, b: Octets)
    requires t == a + rest && rest == core + b
    ensures t == a + core + b
  {
  }

  // ---------------------------------------------------------------- octet by octet

  /** A field value is readable when every octet is a tab or visible ASCII or a space. */
  lemma ReadableIff(t: Octets)
    ensures Readable(t) <==> forall i :: 0 <= i < |t| ==> t[i] == 0x09 || (t[i] >= 0x20 && t[i] < 0x7f)
  {
  }

  lemma UpperIs(t: Octets)
    ensures |Upper(t)| == |t|
    ensures forall i :: 0 <= i < |t| ==> Upper(t)[i] == if 0x61 <= t[i] <= 0x7a then t[i] - 0x20 else t[i]
  {
  }

  /** The text a token spells, letters in lower case. */
  ghost predicate Reads(token: Octets, name: string) {
    |token| == |name|
    && forall i :: 0 <= i < |token| ==> name[i] == if 0x41 <= token[i] <= 0x5a then (token[i] + 0x20) as char else token[i] as char
  }

  lemma ReadsIff(token: Octets, name: string)
    ensures Text(Lower(token)) == name <==> Reads(token, name)
  {
    var text := Text(Lower(token));
    assert |text| == |token|;
    assert forall i :: 0 <= i < |token| ==>
        text[i] == if 0x41 <= token[i] <= 0x5a then (token[i] + 0x20) as char else token[i] as char;
  }

  // ---------------------------------------------------------------- the pieces between separators

  /** The piece stands between two separators, or between one and an end. */
  ghost predicate Between(separator: bv8, t: Octets, a: Octets, piece: Octets, b: Octets) {
    && t == a + piece + b && separator !in piece
    && (a == [] || a[|a| - 1] == separator) && (b == [] || b[0] == separator)
  }

  lemma {:induction false} FirstPiece(separator: bv8, t: Octets) returns (b: Octets)
    ensures Between(separator, t, [], Split(separator, t)[0], b)
    decreases |t|
  {
    if t == [] || t[0] == separator {
      b := t;
      assert t == [] + [] + t;
    } else {
      b := FirstPiece(separator, t[1..]);
      PieceGrows(separator, t, Split(separator, t[1..])[0], b);
    }
  }

  lemma PieceGrows(separator: bv8, t: Octets, piece: Octets, b: Octets)
    requires t != [] && t[0] != separator && Between(separator, t[1..], [], piece, b)
    ensures Between(separator, t, [], [t[0]] + piece, b)
  {
    assert t[1..] == piece + b;
    assert t == [] + ([t[0]] + piece) + b;
  }

  lemma {:induction false} FirstPieceIsUnique(separator: bv8, t: Octets, piece: Octets, b: Octets)
    requires Between(separator, t, [], piece, b)
    ensures piece == Split(separator, t)[0]
    decreases |t|
  {
    assert t == piece + b;
    if piece != [] {
      assert t[0] == piece[0] && t[1..] == piece[1..] + b;
      assert t[1..] == [] + piece[1..] + b;
      FirstPieceIsUnique(separator, t[1..], piece[1..], b);
      assert piece == [piece[0]] + piece[1..];
    }
  }

  ghost predicate Later(separator: bv8, t: Octets, piece: Octets) { exists a, b :: a != [] && Between(separator, t, a, piece, b) }

  lemma {:induction false} OneFurther(separator: bv8, x: bv8, rest: Octets, a: Octets, piece: Octets, b: Octets)
    requires Between(separator, rest, a, piece, b) && (a == [] ==> x == separator)
    ensures Between(separator, [x] + rest, [x] + a, piece, b)
  {
    assert [x] + (a + piece + b) == ([x] + a) + piece + b;
  }

  lemma {:induction false} OneBack(separator: bv8, t: Octets, a: Octets, piece: Octets, b: Octets)
    requires a != [] && Between(separator, t, a, piece, b)
    ensures t[0] == a[0] && Between(separator, t[1..], a[1..], piece, b)
  {
    assert a == [a[0]] + a[1..];
    assert t == [a[0]] + (a[1..] + piece + b);
  }

  lemma {:induction false} LaterPieceIff(separator: bv8, t: Octets, piece: Octets)
    ensures piece in Split(separator, t)[1..] <==> Later(separator, t, piece)
    decreases |t|
  {
    if t != [] {
      var rest := t[1..];
      assert t == [t[0]] + rest;
      LaterPieceIff(separator, rest, piece);
      if t[0] == separator {
        assert Split(separator, t)[1..] == Split(separator, rest);
        SplitHead(separator, rest, piece);
        LaterAfterSeparator(separator, rest, piece);
      } else {
        assert Split(separator, t)[1..] == Split(separator, rest)[1..];
        LaterAfterOther(separator, t[0], rest, piece);
      }
    }
  }

  lemma {:induction false} SplitHead(separator: bv8, t: Octets, piece: Octets)
    ensures piece in Split(separator, t) <==> piece == Split(separator, t)[0] || piece in Split(separator, t)[1..]
  {
    var pieces := Split(separator, t);
    assert pieces == [pieces[0]] + pieces[1..];
  }

  lemma {:induction false} LaterAfterSeparator(separator: bv8, rest: Octets, piece: Octets)
    ensures Later(separator, [separator] + rest, piece) <==> piece == Split(separator, rest)[0] || Later(separator, rest, piece)
  {
    var t := [separator] + rest;
    assert t[1..] == rest;
    if piece == Split(separator, rest)[0] {
      var b := FirstPiece(separator, rest);
      OneFurther(separator, separator, rest, [], piece, b);
    }
    if a, b :| a != [] && Between(separator, rest, a, piece, b) {
      OneFurther(separator, separator, rest, a, piece, b);
    }
    if a, b :| a != [] && Between(separator, t, a, piece, b) {
      OneBack(separator, t, a, piece, b);
      if |a| == 1 {
        FirstPieceIsUnique(separator, rest, piece, b);
      }
    }
  }

  lemma {:induction false} LaterAfterOther(separator: bv8, x: bv8, rest: Octets, piece: Octets)
    requires x != separator
    ensures Later(separator, [x] + rest, piece) <==> Later(separator, rest, piece)
  {
    var t := [x] + rest;
    assert t[1..] == rest;
    if a, b :| a != [] && Between(separator, rest, a, piece, b) {
      OneFurther(separator, x, rest, a, piece, b);
    }
    if a, b :| a != [] && Between(separator, t, a, piece, b) {
      OneBack(separator, t, a, piece, b);
    }
  }

  /** The pieces of a split are exactly what stands between separators. */
  lemma PieceIff(separator: bv8, t: Octets, piece: Octets)
    ensures piece in Split(separator, t) <==> exists a, b :: Between(separator, t, a, piece, b)
  {
    SplitHead(separator, t, piece);
    LaterPieceIff(separator, t, piece);
    var first := FirstPiece(separator, t);
    if a, b :| Between(separator, t, a, piece, b) {
      if a == [] {
        FirstPieceIsUnique(separator, t, piece, b);
      }
    }
  }

  lemma {:induction false} TrimmedIff(pieces: seq<Octets>, token: Octets)
    ensures token in Trimmed(pieces) <==> token != [] && exists i :: 0 <= i < |pieces| && Trim(pieces[i]) == token
    decreases |pieces|
  {
    if pieces != [] {
      TrimmedIff(pieces[1..], token);
      assert pieces == [pieces[0]] + pieces[1..];
      if i :| 0 <= i < |pieces[1..]| && Trim(pieces[1..][i]) == token {
        assert pieces[i + 1] == pieces[1..][i];
      }
      if i :| 0 <= i < |pieces| && Trim(pieces[i]) == token {
        assert i > 0 ==> pieces[1..][i - 1] == pieces[i];
      }
    }
  }

  /** The trimmed, non-empty pieces of a text. */
  lemma TokensIff(separator: bv8, t: Octets, token: Octets)
    ensures token in Trimmed(Split(separator, t)) <==>
              token != [] && exists a, piece, b :: Between(separator, t, a, piece, b) && Trim(piece) == token
  {
    var pieces := Split(separator, t);
    TrimmedIff(pieces, token);
    forall piece ensures piece in pieces <==> exists a, b :: Between(separator, t, a, piece, b) { PieceIff(separator, t, piece); }
    if i :| 0 <= i < |pieces| && Trim(pieces[i]) == token {
      assert pieces[i] in pieces;
    }
    if a, piece, b :| Between(separator, t, a, piece, b) && Trim(piece) == token {
      assert piece in pieces;
    }
  }

  // ---------------------------------------------------------------- splitting and joining

  lemma {:induction false} SplitJoins(separator: bv8, a: Octets, c: Octets)
    ensures Split(separator, a + [separator] + c) == Split(separator, a) + Split(separator, c)
  {
    var whole := a + [separator] + c;
    if a == [] {
      assert whole == [separator] + c;
      assert whole[1..] == c;
    } else {
      assert whole[1..] == a[1..] + [separator] + c;
      SplitJoins(separator, a[1..], c);
    }
  }

  lemma {:induction false} TrimmedJoin(a: seq<Octets>, b: seq<Octets>)
    ensures Trimmed(a + b) == Trimmed(a) + Trimmed(b)
  {
    if a == [] {
      assert a + b == b;
    } else {
      assert (a + b)[1..] == a[1..] + b;
      TrimmedJoin(a[1..], b);
    }
  }

  ghost predicate AllReadable(fields: seq<Octets>) { forall i :: 0 <= i < |fields| ==> Readable(fields[i]) }

  lemma AllReadableJoin(a: seq<Octets>, b: seq<Octets>)
    ensures AllReadable(a + b) <==> AllReadable(a) && AllReadable(b)
  {
    if AllReadable(a + b) {
      forall i | 0 <= i < |a| ensures Readable(a[i]) { assert (a + b)[i] == a[i]; }
      forall i | 0 <= i < |b| ensures Readable(b[i]) { assert (a + b)[|a| + i] == b[i]; }
    }
  }
}
