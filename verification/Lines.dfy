/** Splitting text at a character and joining the pieces again. */
module Lines {
  import opened Options

  /** The pieces between separators; one more than there are separators. */
  function Split(sep: char, s: string): (r: seq<string>)
    ensures |r| >= 1
  {
    if s == "" then [""]
    else
      var rest := Split(sep, s[1..]);
      if s[0] == sep then [""] + rest else [[s[0]] + rest[0]] + rest[1..]
  }

  function Join(sep: char, pieces: seq<string>): string
    requires |pieces| >= 1
  {
    if |pieces| == 1 then pieces[0] else pieces[0] + ([sep] + Join(sep, pieces[1..]))
  }

  lemma {:induction false} SplitPieces(sep: char, s: string)
    ensures forall piece <- Split(sep, s) :: sep !in piece
  {
    if s != "" {
      SplitPieces(sep, s[1..]);
      var rest := Split(sep, s[1..]);
      forall i | 0 <= i < |Split(sep, s)| ensures sep !in Split(sep, s)[i] {
        if s[0] == sep {
          if i > 0 { assert Split(sep, s)[i] == rest[i - 1]; }
        } else if i > 0 {
          assert Split(sep, s)[i] == rest[i];
        } else {
          assert rest[0] in rest;
        }
      }
    }
  }

  lemma {:induction false} SplitAfterPiece(sep: char, piece: string, s: string)
    requires sep !in piece
    ensures Split(sep, piece + ([sep] + s)) == [piece] + Split(sep, s)
  {
    if piece == "" {
      assert piece + ([sep] + s) == [sep] + s && ([sep] + s)[1..] == s;
    } else {
      var t := piece + ([sep] + s);
      assert t[0] == piece[0] && t[1..] == piece[1..] + ([sep] + s);
      SplitAfterPiece(sep, piece[1..], s);
      assert [piece[0]] + piece[1..] == piece;
    }
  }

  lemma {:induction false} SplitOnePiece(sep: char, piece: string)
    requires sep !in piece
    ensures Split(sep, piece) == [piece]
  {
    if piece != "" {
      SplitOnePiece(sep, piece[1..]);
      assert [piece[0]] + piece[1..] == piece;
    }
  }

  /** Pieces without the separator survive joining and splitting. */
  lemma {:induction false} SplitOfJoin(sep: char, pieces: seq<string>)
    requires |pieces| >= 1 && forall piece <- pieces :: sep !in piece
    ensures Split(sep, Join(sep, pieces)) == pieces
  {
    if |pieces| == 1 {
      SplitOnePiece(sep, pieces[0]);
    } else {
      SplitAfterPiece(sep, pieces[0], Join(sep, pieces[1..]));
      SplitOfJoin(sep, pieces[1..]);
      assert pieces == [pieces[0]] + pieces[1..];
    }
  }

  lemma {:induction false} JoinOfSplit(sep: char, s: string)
    ensures Join(sep, Split(sep, s)) == s
  {
    if s != "" {
      JoinOfSplit(sep, s[1..]);
      var rest := Split(sep, s[1..]);
      if s[0] == sep {
        assert ([""] + rest)[1..] == rest;
        assert "" + ([sep] + Join(sep, rest)) == s;
      } else {
        JoinFirst(sep, s[0], rest);
        assert [s[0]] + s[1..] == s;
      }
    }
  }

  lemma JoinFirst(sep: char, c: char, pieces: seq<string>)
    requires |pieces| >= 1
    ensures Join(sep, [[c] + pieces[0]] + pieces[1..]) == [c] + Join(sep, pieces)
  {
    var more := [[c] + pieces[0]] + pieces[1..];
    assert more[1..] == pieces[1..];
    if |pieces| > 1 {
      var tail := [sep] + Join(sep, pieces[1..]);
      assert ([c] + pieces[0]) + tail == [c] + (pieces[0] + tail);
    }
  }

  /** At most `count` pieces of at most `most` characters. */
  lemma {:induction false} JoinLength(sep: char, pieces: seq<string>, count: nat, most: nat)
    requires 1 <= |pieces| <= count && forall piece <- pieces :: |piece| <= most
    ensures |Join(sep, pieces)| <= count * (most + 1)
  {
    assert count * (most + 1) == (count - 1) * (most + 1) + (most + 1);
    if |pieces| > 1 {
      JoinLength(sep, pieces[1..], count - 1, most);
    } else {
      assert (count - 1) * (most + 1) >= 0;
    }
  }

  // ---------------------------------------------------------------- blank and indented lines

  /** A line break that a line break or a space follows. */
  predicate Gap(s: string) {
    exists i :: 0 <= i < |s| - 1 && s[i] == '\n' && (s[i + 1] == '\n' || s[i + 1] == ' ')
  }

  /** One line, neither blank nor indented. */
  predicate Firm(line: string) {
    line != "" && line[0] != ' ' && '\n' !in line
  }

  lemma JoinStarts(sep: char, pieces: seq<string>)
    requires |pieces| >= 1 && pieces[0] != ""
    ensures Join(sep, pieces) != "" && Join(sep, pieces)[0] == pieces[0][0]
  {
  }

  lemma {:induction false} JoinOfFirm(pieces: seq<string>)
    requires |pieces| >= 1 && forall piece <- pieces :: Firm(piece)
    ensures !Gap(Join('\n', pieces))
  {
    assert Firm(pieces[0]);
    if |pieces| > 1 {
      assert Firm(pieces[1]);
      JoinOfFirm(pieces[1..]);
      JoinStarts('\n', pieces[1..]);
      NoGapBetween(pieces[0], Join('\n', pieces[1..]));
    } else {
      assert forall i | 0 <= i < |pieces[0]| :: pieces[0][i] != '\n';
    }
  }

  lemma NoGapBetween(line: string, rest: string)
    requires Firm(line) && !Gap(rest) && rest != "" && rest[0] != '\n' && rest[0] != ' '
    ensures !Gap(line + (['\n'] + rest))
  {
    var s := line + (['\n'] + rest);
    forall i | 0 <= i < |s| - 1 ensures !(s[i] == '\n' && (s[i + 1] == '\n' || s[i + 1] == ' ')) {
      if i > |line| { assert s[i] == rest[i - |line| - 1] && s[i + 1] == rest[i - |line|]; }
      if i < |line| { assert s[i] == line[i]; }
    }
  }

  /** A gap in one of the lines, or a line break at the end of one that is not the last, is a gap in the text. */
  lemma {:induction false} JoinHasGap(pieces: seq<string>, k: nat)
    requires k < |pieces|
    requires Gap(pieces[k]) || (k + 1 < |pieces| && pieces[k] != "" && pieces[k][|pieces[k]| - 1] == '\n')
    ensures Gap(Join('\n', pieces))
  {
    var first, s := pieces[0], Join('\n', pieces);
    if k > 0 {
      var rest := Join('\n', pieces[1..]);
      JoinHasGap(pieces[1..], k - 1);
      var i :| 0 <= i < |rest| - 1 && rest[i] == '\n' && (rest[i + 1] == '\n' || rest[i + 1] == ' ');
      assert s[i + |first| + 1] == rest[i] && s[i + |first| + 2] == rest[i + 1];
    } else if Gap(first) {
      var i :| 0 <= i < |first| - 1 && first[i] == '\n' && (first[i + 1] == '\n' || first[i + 1] == ' ');
      assert s[i] == first[i] && s[i + 1] == first[i + 1];
    } else {
      assert s[|first| - 1] == '\n' && s[|first|] == '\n';
    }
  }

  // ---------------------------------------------------------------- labelled lines

  function Label(key: string): string {
    key + ": "
  }

  function Labelled(keys: seq<string>, values: seq<string>): (r: seq<string>)
    requires |keys| == |values|
    ensures |r| == |keys|
    ensures forall i :: 0 <= i < |r| ==> r[i] == Label(keys[i]) + values[i]
  {
    seq(|keys|, i requires 0 <= i < |keys| => Label(keys[i]) + values[i])
  }

  /** What stands behind the labels; None if a line lacks its label. */
  function ValuesOf(keys: seq<string>, lines: seq<string>): (r: Option<seq<string>>)
    requires |keys| == |lines|
    ensures r.Some? ==> |r.value| == |keys|
  {
    if keys == [] then Some([])
    else
      var n := |keys| - 1;
      var before :- ValuesOf(keys[..n], lines[..n]);
      if Label(keys[n]) <= lines[n] then Some(before + [lines[n][|Label(keys[n])|..]]) else None
  }

  lemma LabelledSnoc(keys: seq<string>, lines: seq<string>, values: seq<string>)
    requires |keys| == |lines| == |values| && keys != []
    ensures var n := |keys| - 1;
      (lines == Labelled(keys, values))
        == (lines[..n] == Labelled(keys[..n], values[..n]) && lines[n] == Label(keys[n]) + values[n])
  {
    var n := |keys| - 1;
    assert Labelled(keys, values)[..n] == Labelled(keys[..n], values[..n]);
    assert Labelled(keys, values)[n] == Label(keys[n]) + values[n];
    assert lines == lines[..n] + [lines[n]] && Labelled(keys, values) == Labelled(keys, values)[..n] + [Labelled(keys, values)[n]];
  }

  lemma LabelReads(mark: string, line: string, value: string)
    ensures line == mark + value <==> mark <= line && line[|mark|..] == value
  {
  }

  /** The values are exactly what was labelled. */
  lemma {:induction false} ValuesOfIffLabelled(keys: seq<string>, lines: seq<string>, values: seq<string>)
    requires |keys| == |lines| == |values|
    ensures ValuesOf(keys, lines) == Some(values) <==> lines == Labelled(keys, values)
  {
    if keys != [] {
      var n := |keys| - 1;
      ValuesOfIffLabelled(keys[..n], lines[..n], values[..n]);
      LabelledSnoc(keys, lines, values);
      LabelReads(Label(keys[n]), lines[n], values[n]);
      assert values == values[..n] + [values[n]];
    }
  }

  /** A line without its label spoils the whole. */
  lemma {:induction false} ValuesStop(keys: seq<string>, lines: seq<string>, n: nat)
    requires |keys| == |lines| && n <= |keys| && ValuesOf(keys[..n], lines[..n]).None?
    ensures ValuesOf(keys, lines).None?
    decreases |keys|
  {
    if n == |keys| {
      assert keys[..n] == keys && lines[..n] == lines;
    } else {
      var m := |keys| - 1;
      assert keys[..m][..n] == keys[..n] && lines[..m][..n] == lines[..n];
      ValuesStop(keys[..m], lines[..m], n);
    }
  }
}
