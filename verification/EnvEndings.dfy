/** A rewritten `.env` file keeps its style of line endings. */
module EnvEndings {
  import opened Wrappers
  import opened CaddyEnv

  /** Every newline comes after a carriage return. */
  ghost predicate Paired(t: string) {
    forall i :: 0 <= i < |t| && t[i] == '\n' ==> i > 0 && t[i - 1] == '\r'
  }

  /** No newline comes after a carriage return. */
  ghost predicate Unpaired(t: string) {
    forall i, j :: 0 <= i && j == i + 1 < |t| && t[j] == '\n' ==> t[i] != '\r'
  }

  ghost predicate EndsInReturn(t: string) {
    t != "" && t[|t| - 1] == '\r'
  }

  lemma PairedConcat(a: string, b: string)
    ensures Paired(a) && Paired(b) ==> Paired(a + b)
    ensures Paired(a + b) ==> Paired(a)
    ensures Paired(a + b) && !(EndsInReturn(a) && b != "" && b[0] == '\n') ==> Paired(b)
  {
    if Paired(a + b) {
      forall i | 0 <= i < |a| && a[i] == '\n' ensures i > 0 && a[i - 1] == '\r' {
        assert (a + b)[i] == a[i];
        assert i > 0 ==> (a + b)[i - 1] == a[i - 1];
      }
      if b != "" && b[0] == '\n' {
        assert (a + b)[|a|] == b[0];
        assert |a| > 0 && (a + b)[|a| - 1] == a[|a| - 1];
      }
      if !(EndsInReturn(a) && b != "" && b[0] == '\n') {
        forall i | 0 <= i < |b| && b[i] == '\n' ensures i > 0 && b[i - 1] == '\r' {
          assert (a + b)[|a| + i] == b[i];
          assert i > 0 ==> (a + b)[|a| + (i - 1)] == b[i - 1];
        }
      }
    }
  }

  lemma UnpairedConcat(a: string, b: string)
    ensures Unpaired(a) && Unpaired(b) && !(EndsInReturn(a) && b != "" && b[0] == '\n') ==> Unpaired(a + b)
    ensures Unpaired(a + b) ==> Unpaired(a) && Unpaired(b)
  {
    if Unpaired(a + b) {
      forall i, j | 0 <= i && j == i + 1 < |a| && a[j] == '\n' ensures a[i] != '\r' {
        assert (a + b)[i] == a[i] && (a + b)[j] == a[j];
      }
      forall i, j | 0 <= i && j == i + 1 < |b| && b[j] == '\n' ensures b[i] != '\r' {
        assert (a + b)[|a| + i] == b[i] && (a + b)[|a| + j] == b[j];
      }
    }
  }

  lemma StyleOfEnding(text: string)
    ensures Ending(text) == if Unpaired(text) then "\n" else "\r\n"
  {
    if !Unpaired(text) {
      var i, j :| 0 <= i && j == i + 1 < |text| && text[j] == '\n' && text[i] == '\r';
      assert HasCRLF(text);
    }
  }

  /** The lines of a text share its style. */
  lemma {:induction false} LinesShare(lines: seq<string>)
    requires Cut(lines)
    ensures Paired(Flatten(lines)) ==> forall i :: 0 <= i < |lines| ==> Paired(lines[i])
    ensures Unpaired(Flatten(lines)) ==> forall i :: 0 <= i < |lines| ==> Unpaired(lines[i])
    ensures lines != [] ==>
      var t, l := Flatten(lines), lines[|lines| - 1];
      t != [] && l != [] && t[|t| - 1] == l[|l| - 1]
  {
    hide Paired, Unpaired, IsLine;
    if lines != [] {
      var k := |lines| - 1;
      LinesShare(lines[..k]);
      LineNotEmpty(lines[k]);
      var a := Flatten(lines[..k]);
      PairedConcat(a, lines[k]);
      UnpairedConcat(a, lines[k]);
      if k > 0 { assert Seam(lines[k - 1], lines[k]); }
    }
  }

  lemma AssignmentShares(key: string, v: string, e: string)
    requires key in KEYS && Writable(v)
    ensures e == "\r\n" ==> Paired(Assignment(key, v, e))
    ensures e == "\n" && !EndsInReturn(v) ==> Unpaired(Assignment(key, v, e))
    ensures Assignment(key, v, e) != "" && Assignment(key, v, e)[0] != '\n'
  {
    hide KEYS;
    KeysArePlain();
    assert PlainKey(key);
    assert key != [];
    var a := Assignment(key, v, e);
    forall i | 0 <= i < |key| + 1 + |v| ensures a[i] != '\n' {
      if i < |key| { assert a[i] == key[i]; } else if i > |key| { assert a[i] == v[i - |key| - 1] && a[i] in v; }
    }
  }

  lemma PieceShares(line: string, u: Values, e: string)
    requires AllWritable(u) && IsEnding(e)
    ensures e == "\r\n" && Paired(line) ==> Paired(Piece(line, u, e))
    ensures e == "\n" && Unpaired(line) ==> Unpaired(Piece(line, u, e))
  {
    hide MatchLine, KEYS, Paired, Unpaired, Writable;
    if ManagedLine(line) {
      var key := MatchLine(line).value.0;
      assert Writable(Valued(u, key));
      AssignmentShares(key, Valued(u, key), e);
      NoReturn(Valued(u, key));
    }
  }

  lemma NoReturn(v: string)
    requires Writable(v)
    ensures !EndsInReturn(v)
  {
    assert v == "" || v[|v| - 1] in v;
  }

  lemma {:induction false} PiecesShare(lines: seq<string>, u: Values, e: string, i: nat)
    requires Cut(lines) && AllWritable(u) && IsEnding(e) && i <= |lines|
    requires if e == "\r\n" then forall j :: 0 <= j < |lines| ==> Paired(lines[j])
             else forall j :: 0 <= j < |lines| ==> Unpaired(lines[j])
    ensures var t := Flatten(Pieces(lines[..i], u, e));
      && (if e == "\r\n" then Paired(t) else Unpaired(t))
      && (i > 0 ==> var p := Piece(lines[i - 1], u, e); t != [] && p != [] && t[|t| - 1] == p[|p| - 1])
  {
    hide MatchLine, KEYS, Paired, Unpaired, IsLine, AllWritable, ManagedLine, Piece, Seam, Pieces, Flatten, Cut;
    if i == 0 {
      NothingToRead(lines, u, e);
      assert Paired("") && Unpaired("") by { NothingShares(); }
    } else {
      var j := i - 1;
      PiecesShare(lines, u, e, j);
      PieceShares(lines[j], u, e);
      PiecesStep(lines, u, e, j);
      PieceThere(lines, u, e, j);
      var t, p := Flatten(Pieces(lines[..j], u, e)), Piece(lines[j], u, e);
      if j > 0 {
        PiecesMeet(lines, u, e, j);
        SeamByLast(Piece(lines[j - 1], u, e), t, p);
      } else {
        NothingToRead(lines, u, e);
        SeamFromNothing(t, p);
      }
      SeamShares(t, p);
    }
  }

  lemma PieceThere(lines: seq<string>, u: Values, e: string, j: nat)
    requires Cut(lines) && j < |lines| && IsEnding(e) && AllWritable(u)
    ensures Piece(lines[j], u, e) != []
  {
    hide MatchLine, KEYS, IsLine, ManagedLine, Piece, Seam;
    PieceSays(lines[j], u, e);
  }

  lemma PiecesMeet(lines: seq<string>, u: Values, e: string, j: nat)
    requires Cut(lines) && 0 < j < |lines| && IsEnding(e)
    ensures Seam(Piece(lines[j - 1], u, e), Piece(lines[j], u, e))
  {
    hide MatchLine, KEYS, IsLine, ManagedLine, Piece, Seam;
    LineNotEmpty(lines[j - 1]);
    LineNotEmpty(lines[j]);
    PieceSeam(lines[j - 1], lines[j], u, e);
  }

  lemma SeamShares(t: string, p: string)
    requires Seam(t, p)
    ensures Paired(t) && Paired(p) ==> Paired(t + p)
    ensures Unpaired(t) && Unpaired(p) ==> Unpaired(t + p)
  {
    hide Paired, Unpaired;
    PairedConcat(t, p);
    UnpairedConcat(t, p);
  }

  lemma NothingShares()
    ensures Paired("") && Unpaired("")
  {
  }

  lemma {:induction false} MissingShares(found: set<string>, u: Values, e: string, i: nat)
    requires AllWritable(u) && IsEnding(e) && i <= |KEYS|
    ensures var t := Missing(found, u, e, KEYS[..i]);
      && (if e == "\r\n" then Paired(t) else Unpaired(t))
      && (t != "" ==> t[0] != '\n') && !EndsInReturn(t)
  {
    hide KEYS, Paired, Unpaired, Writable, Assignment, Valued;
    if i == 0 {
      NothingShares();
    } else {
      var j, key := i - 1, KEYS[i - 1];
      assert KEYS[..i][..j] == KEYS[..j];
      MissingShares(found, u, e, j);
      var t := Missing(found, u, e, KEYS[..j]);
      if key !in found {
        assert Writable(Valued(u, key));
        var a := Assignment(key, Valued(u, key), e);
        AssignmentShares(key, Valued(u, key), e);
        NoReturn(Valued(u, key));
        AssignmentEnds(key, Valued(u, key), e);
        PairedConcat(t, a);
        UnpairedConcat(t, a);
      } else {
        assert t + "" == t;
      }
    }
  }

  lemma AssignmentEnds(key: string, v: string, e: string)
    requires IsEnding(e)
    ensures !EndsInReturn(Assignment(key, v, e))
  {
  }

  /** A file whose newlines all follow a carriage return is rewritten to such a file. One in
      which none does stays so too, unless its last line ends in a bare carriage return: the
      newline that is then added makes a pair. */
  lemma RenderKeepsEndings(text: string, u: Values)
    requires Parse(text).Some? && AllWritable(u)
    ensures Paired(text) && !Unpaired(text) ==> Paired(Render(text, u))
    ensures Unpaired(text) && !EndsInReturn(text) ==> Unpaired(Render(text, u))
  {
    hide KEYS, AllWritable, SplitLines, Flatten, Pieces, Paired, Unpaired, EndsInReturn, Parse, Missing, ManagedKeys,
      IsLine, Cut, Closing;
    var lines, e := SplitLines(text), Ending(text);
    SplitIsCut(text);
    LinesShare(lines);
    StyleOfEnding(text);
    if (Paired(text) && !Unpaired(text)) || (Unpaired(text) && !EndsInReturn(text)) {
      PiecesShare(lines, u, e, |lines|);
      assert lines[..|lines|] == lines;
      var pieces := Pieces(lines, u, e);
      var t, c, m := Flatten(pieces), Closing(pieces, e), Missing(ManagedKeys(lines), u, e, KEYS);
      MissingShares(ManagedKeys(lines), u, e, |KEYS|);
      assert KEYS[..|KEYS|] == KEYS;
      ClosingShares(text, lines, u, e);
      PairedConcat(t, c);
      UnpairedConcat(t, c);
      PairedConcat(t + c, m);
      UnpairedConcat(t + c, m);
      NewlineFirst(t + c, m);
    }
  }

  lemma NewlineFirst(a: string, m: string)
    requires m != "" ==> m[0] != '\n'
    ensures !(EndsInReturn(a) && m != "" && m[0] == '\n')
  {
  }

  lemma SplitIsCut(text: string)
    ensures Cut(SplitLines(text)) && Flatten(SplitLines(text)) == text
  {
    SplitFacts(text);
  }

  /** The newline after the last piece. */
  lemma ClosingShares(text: string, lines: seq<string>, u: Values, e: string)
    requires lines == SplitLines(text) && Cut(lines) && Flatten(lines) == text && AllWritable(u) && IsEnding(e)
    requires lines != [] ==> var l := lines[|lines| - 1]; text != [] && l != [] && text[|text| - 1] == l[|l| - 1]
    ensures var pieces := Pieces(lines, u, e);
      var t, c := Flatten(pieces), Closing(pieces, e);
      && (e == "\r\n" ==> Paired(c))
      && (e == "\n" ==> Unpaired(c))
      && (e == "\n" && !EndsInReturn(text) ==> !(EndsInReturn(t) && c != "" && c[0] == '\n'))
  {
    hide MatchLine, KEYS, IsLine, AllWritable, SplitLines, ManagedLine, Piece, Pieces, Seam, Cut, Writable;
    if lines == [] {
      NoLines(u, e);
    } else {
      var k := |lines| - 1;
      PiecesLast(lines, u, e);
      PiecesStep(lines, u, e, k);
      assert lines[..k + 1] == lines;
      PieceThere(lines, u, e, k);
      LastPiece(lines[k], u, e);
    }
  }

  lemma LastPiece(line: string, u: Values, e: string)
    requires line != [] && IsEnding(e)
    ensures EndsInReturn(Piece(line, u, e)) ==> EndsInReturn(line)
  {
    hide MatchLine, KEYS;
  }
}
