/**
  * The text of the messages a multiplayer game exchanges with the server:
  * PIECE replies, the BOARD report, chat lines and the SCORES table.
  */
module Protocol {
  import opened Text
  import opened Boards
  import opened Counting

  /** The four inbound tags begin with different letters, so a message carries at most one of them. */
  lemma TagsExclusive(m: string)
    ensures StartsWith(m, "MSG") ==> !StartsWith(m, "PIECE") && !StartsWith(m, "SCORES") && !StartsWith(m, "ERROR")
    ensures StartsWith(m, "PIECE") ==> !StartsWith(m, "SCORES") && !StartsWith(m, "ERROR")
    ensures StartsWith(m, "SCORES") ==> !StartsWith(m, "ERROR")
  {
    if StartsWith(m, "MSG") { StartsWithFirst(m, "MSG"); }
    if StartsWith(m, "PIECE") { StartsWithFirst(m, "PIECE"); }
    if StartsWith(m, "SCORES") { StartsWithFirst(m, "SCORES"); }
    if StartsWith(m, "ERROR") { StartsWithFirst(m, "ERROR"); }
  }

  /** Which of the inbound tags a message starts with, if any. */
  datatype Tag = Chat | PieceReply | ScoresReply | ErrorReply | Untagged

  /** The tag a message carries: each tag exactly when the message starts with its word. */
  function TagOf(m: string): (t: Tag)
    ensures t == Chat <==> StartsWith(m, "MSG")
    ensures t == PieceReply <==> StartsWith(m, "PIECE")
    ensures t == ScoresReply <==> StartsWith(m, "SCORES")
    ensures t == ErrorReply <==> StartsWith(m, "ERROR")
  {
    TagsExclusive(m);
    if StartsWith(m, "MSG") then Chat
    else if StartsWith(m, "PIECE") then PieceReply
    else if StartsWith(m, "SCORES") then ScoresReply
    else if StartsWith(m, "ERROR") then ErrorReply
    else Untagged
  }

  // -------------------------------------------------------------------- PIECE

  /** A "PIECE <id>" reply: the text after the first space is an id of the catalogue. */
  predicate IsPieceMessage(m: string, pieces: nat)
  {
    var v := AfterFirst(m, ' ');
    IsIntLiteral(v) && 0 <= ParseInt(v) < pieces
  }

  function PieceId(m: string, pieces: nat): (id: nat)
    requires IsPieceMessage(m, pieces)
    ensures id < pieces
  {
    ParseInt(AfterFirst(m, ' '))
  }

  /** The id the server puts in a PIECE reply is the id the game reads back. */
  lemma PieceMessageRoundTrip(id: nat, pieces: nat)
    requires id < pieces
    ensures IsPieceMessage("PIECE " + IntToString(id), pieces)
    ensures PieceId("PIECE " + IntToString(id), pieces) == id
  {
    assert "PIECE " + IntToString(id) == "PIECE" + [' '] + IntToString(id);
    IndexAfterPrefix("PIECE", ' ', IntToString(id));
    IntRoundTrip(id);
  }

  // -------------------------------------------------------------------- BOARD

  /** The cells of the first n columns, column by column, each column top to bottom. */
  function Columns(b: Board, n: nat): seq<int>
    requires n <= |b|
  {
    if n == 0 then [] else Columns(b, n - 1) + b[n - 1]
  }

  /** Every cell of the board, column by column: the order the BOARD report lists them in. */
  function Flatten(b: Board, cols: nat, rows: nat): seq<int>
    requires IsBoard(b, cols, rows)
  {
    Columns(b, cols)
  }

  /** Each value written in decimal and followed by one space. */
  function Spaced(values: seq<int>): string
  {
    if values == [] then "" else IntToString(values[0]) + " " + Spaced(values[1..])
  }

  function BoardMessage(b: Board, cols: nat, rows: nat): string
    requires IsBoard(b, cols, rows)
  {
    "BOARD " + Spaced(Flatten(b, cols, rows))
  }

  lemma {:induction false} SpacedAppend(values: seq<int>, v: int)
    ensures Spaced(values + [v]) == Spaced(values) + IntToString(v) + " "
  {
    if values == [] {
      assert [v][1..] == [];
    } else {
      var head, rest := IntToString(values[0]) + " ", values[1..];
      assert (values + [v])[1..] == rest + [v];
      calc {
        Spaced(values + [v]);
        head + Spaced(rest + [v]);
        { SpacedAppend(rest, v); }
        head + (Spaced(rest) + IntToString(v) + " ");
        (head + Spaced(rest)) + IntToString(v) + " ";
      }
    }
  }

  lemma {:induction false} ColumnsLength(b: Board, cols: nat, rows: nat, n: nat)
    requires IsBoard(b, cols, rows) && n <= cols
    ensures |Columns(b, n)| == n * rows
  {
    if n > 0 {
      ColumnsLength(b, cols, rows, n - 1);
      MulStep(n, rows);
    }
  }

  lemma RowIndexBelow(x: nat, y: nat, rows: nat, n: nat)
    requires x < n && y < rows
    ensures x * rows + y < n * rows
  {
    MulStep(x + 1, rows);
    MulMonotone(x + 1, n, rows);
  }

  /** Column x read up to row j, extended by one cell. */
  lemma ColumnsStep(b: Board, cols: nat, rows: nat, x: nat, j: nat)
    requires IsBoard(b, cols, rows) && x < cols && j < rows
    ensures Columns(b, x) + b[x][..j + 1] == Columns(b, x) + b[x][..j] + [b[x][j]]
  {
    assert b[x][..j + 1] == b[x][..j] + [b[x][j]];
  }

  /** Column x read to no row adds nothing. */
  lemma ColumnsStart(b: Board, cols: nat, rows: nat, x: nat)
    requires IsBoard(b, cols, rows) && x < cols
    ensures Columns(b, x) + b[x][..0] == Columns(b, x)
  {
    assert b[x][..0] == [];
  }

  /** Column x read to its last row completes the first x + 1 columns. */
  lemma ColumnsNext(b: Board, cols: nat, rows: nat, x: nat)
    requires IsBoard(b, cols, rows) && x < cols
    ensures Columns(b, x) + b[x][..rows] == Columns(b, x + 1)
  {
    assert b[x][..rows] == b[x];
  }

  /** Cell (x, y) sits at position x * rows + y of the flattened board. */
  lemma {:induction false} ColumnsIndex(b: Board, cols: nat, rows: nat, n: nat, x: nat, y: nat)
    requires IsBoard(b, cols, rows) && n <= cols && x < n && y < rows
    ensures x * rows + y < |Columns(b, n)| && Columns(b, n)[x * rows + y] == b[x][y]
  {
    ColumnsLength(b, cols, rows, n);
    ColumnsLength(b, cols, rows, n - 1);
    RowIndexBelow(x, y, rows, n);
    MulStep(n, rows);
    if x < n - 1 {
      ColumnsIndex(b, cols, rows, n - 1, x, y);
    }
  }

  /** The BOARD report lists column x before column x + 1 and, within a column, row y before row y + 1. */
  lemma FlattenIndex(b: Board, cols: nat, rows: nat, x: nat, y: nat)
    requires IsBoard(b, cols, rows) && x < cols && y < rows
    ensures |Flatten(b, cols, rows)| == cols * rows
    ensures x * rows + y < cols * rows && Flatten(b, cols, rows)[x * rows + y] == b[x][y]
  {
    ColumnsLength(b, cols, rows, cols);
    ColumnsIndex(b, cols, rows, cols, x, y);
  }

  /** Each value in decimal. */
  function Decimals(values: seq<int>): (r: seq<string>)
    ensures |r| == |values|
    ensures forall i :: 0 <= i < |r| ==> r[i] == IntToString(values[i])
  {
    seq(|values|, i requires 0 <= i < |values| => IntToString(values[i]))
  }

  lemma {:induction false} SpacedIsJoin(values: seq<int>)
    requires |values| >= 1
    ensures Spaced(values) == Join(Decimals(values) + [""], ' ')
  {
    var parts := Decimals(values) + [""];
    if |values| == 1 {
      assert values[1..] == [];
      assert parts[1..] == [""];
    } else {
      assert parts[1..] == Decimals(values[1..]) + [""];
      SpacedIsJoin(values[1..]);
    }
  }

  /** Splitting the spaced values at spaces gives each value in decimal. */
  lemma SpacedSplits(values: seq<int>)
    requires |values| >= 1
    ensures JavaSplit(Spaced(values), ' ') == Decimals(values)
  {
    var strs := Decimals(values);
    var parts := strs + [""];
    SpacedIsJoin(values);
    assert forall i :: 0 <= i < |parts| ==> ' ' !in parts[i];
    SplitJoin(parts, ' ');
    var text := Spaced(values);
    assert text == strs[0] + [' '] + Join(parts[1..], ' ');
    assert text[|strs[0]|] == ' ';
    assert JavaSplit(text, ' ') == DropTrailingEmpty(parts);
    DropEmptyLast(strs);
    assert |strs[|strs| - 1]| >= 1;
    DropNothing(strs);
  }

  /**
    * Reading the BOARD report back (dropping the tag, splitting at spaces
    * and parsing each piece) gives every cell value in the report's order.
    */
  lemma BoardMessageRoundTrip(b: Board, cols: nat, rows: nat)
    requires IsBoard(b, cols, rows) && cols > 0 && rows > 0
    ensures var parts := JavaSplit(AfterFirst(BoardMessage(b, cols, rows), ' '), ' ');
      && |Flatten(b, cols, rows)| == |parts| == cols * rows
      && forall i :: 0 <= i < |parts| ==> IsIntLiteral(parts[i]) && ParseInt(parts[i]) == Flatten(b, cols, rows)[i]
  {
    var values := Flatten(b, cols, rows);
    var body := Spaced(values);
    assert |values| == cols * rows && |values| >= 1 by {
      FlattenIndex(b, cols, rows, 0, 0);
    }
    assert AfterFirst(BoardMessage(b, cols, rows), ' ') == body by {
      assert BoardMessage(b, cols, rows) == "BOARD" + [' '] + body;
      IndexAfterPrefix("BOARD", ' ', body);
    }
    assert JavaSplit(body, ' ') == Decimals(values) by {
      SpacedSplits(values);
    }
    forall i | 0 <= i < |values|
      ensures IsIntLiteral(IntToString(values[i])) && ParseInt(IntToString(values[i])) == values[i]
    {
      IntRoundTrip(values[i]);
    }
  }

  // --------------------------------------------------------------------- MSG

  /** A chat message that splits at ':' into at least two pieces. */
  predicate IsChatMessage(m: string)
  {
    |JavaSplit(m, ':')| >= 2
  }

  /** What a chat message is shown as: the sender (the first piece after its first space), ':' and the second piece. */
  function ChatLine(m: string): string
    requires IsChatMessage(m)
  {
    var parts := JavaSplit(m, ':');
    AfterFirst(parts[0], ' ') + ":" + parts[1]
  }

  /** A message body without ':' is shown whole, after the sender. */
  lemma ChatRoundTrip(sender: string, body: string)
    requires ':' !in sender && ':' !in body && body != ""
    ensures IsChatMessage("MSG " + sender + ":" + body)
    ensures ChatLine("MSG " + sender + ":" + body) == sender + ":" + body
  {
    var m := "MSG " + sender + ":" + body;
    assert m == ("MSG " + sender) + [':'] + body;
    SplitAfterPrefix("MSG " + sender, ':', body);
    assert m[|"MSG " + sender|] == ':';
    assert JavaSplit(m, ':') == ["MSG " + sender, body];
    assert "MSG " + sender == "MSG" + [' '] + sender;
    IndexAfterPrefix("MSG", ' ', sender);
  }

  /** A body with a ':' in it is cut at its first ':'; only the text before it is shown. */
  lemma ChatKeepsFirstSegment(sender: string, first: string, rest: string)
    requires ':' !in sender && ':' !in first && first != ""
    ensures IsChatMessage("MSG " + sender + ":" + first + ":" + rest)
    ensures ChatLine("MSG " + sender + ":" + first + ":" + rest) == sender + ":" + first
  {
    var m := "MSG " + sender + ":" + first + ":" + rest;
    var r := SplitOn(m, ':');
    assert r == ["MSG " + sender, first] + SplitOn(rest, ':') by {
      assert m == ("MSG " + sender) + [':'] + (first + [':'] + rest);
      SplitAfterPrefix("MSG " + sender, ':', first + [':'] + rest);
      SplitAfterPrefix(first, ':', rest);
    }
    assert ':' in m by {
      assert m[|"MSG " + sender|] == ':';
    }
    var parts := JavaSplit(m, ':');
    assert |parts| >= 2 && parts[0] == "MSG " + sender && parts[1] == first by {
      DropKeeps(r, 0);
      DropKeeps(r, 1);
    }
    assert AfterFirst("MSG " + sender, ' ') == sender by {
      assert "MSG " + sender == "MSG" + [' '] + sender;
      IndexAfterPrefix("MSG", ' ', sender);
    }
  }

  // ------------------------------------------------------------------ SCORES

  /** One player's line of a SCORES reply, fields still as text. */
  datatype PlayerScore = PlayerScore(name: string, score: string, lives: string)

  /** A line with at least the three fields name, score and lives. */
  predicate IsScoreLine(line: string)
  {
    |JavaSplit(line, ':')| >= 3
  }

  function ScoreLineEntry(line: string): PlayerScore
    requires IsScoreLine(line)
  {
    var fields := JavaSplit(line, ':');
    PlayerScore(fields[0], fields[1], fields[2])
  }

  /** The lines of a SCORES reply, the tag up to the first space removed from the first one. */
  function ScoreLines(m: string): seq<string>
  {
    var lines := JavaSplit(m, '\n');
    if lines == [] then [] else [AfterFirst(lines[0], ' ')] + lines[1..]
  }

  predicate IsScoresMessage(m: string)
  {
    var lines := ScoreLines(m);
    |lines| >= 1 && forall i :: 0 <= i < |lines| ==> IsScoreLine(lines[i])
  }

  /** One entry per well-formed line, in order. */
  function ScoreRows(lines: seq<string>): (t: seq<PlayerScore>)
    requires forall i :: 0 <= i < |lines| ==> IsScoreLine(lines[i])
    ensures |t| == |lines| && forall i :: 0 <= i < |lines| ==> t[i] == ScoreLineEntry(lines[i])
  {
    seq(|lines|, i requires 0 <= i < |lines| => ScoreLineEntry(lines[i]))
  }

  /** The rows of one more line are the rows so far and that line's row. */
  lemma ScoreRowsStep(lines: seq<string>, i: int)
    requires forall k :: 0 <= k < |lines| ==> IsScoreLine(lines[k])
    requires 0 <= i < |lines|
    ensures ScoreRows(lines[..i + 1]) == ScoreRows(lines[..i]) + [ScoreLineEntry(lines[i])]
  {
    assert lines[..i + 1][i] == lines[i];
  }

  /** The table a SCORES reply describes, one entry per line. */
  function ScoreTable(m: string): (t: seq<PlayerScore>)
    requires IsScoresMessage(m)
  {
    ScoreRows(ScoreLines(m))
  }

  /** How the server writes one entry. */
  function EntryLine(e: PlayerScore): string
  {
    e.name + ":" + e.score + ":" + e.lives
  }

  predicate IsPlainEntry(e: PlayerScore)
  {
    && ':' !in e.name && ':' !in e.score && ':' !in e.lives
    && '\n' !in e.name && '\n' !in e.score && '\n' !in e.lives
    && e.lives != ""
  }

  function EntryLines(entries: seq<PlayerScore>): (r: seq<string>)
    ensures |r| == |entries|
    ensures forall i :: 0 <= i < |r| ==> r[i] == EntryLine(entries[i])
  {
    seq(|entries|, i requires 0 <= i < |entries| => EntryLine(entries[i]))
  }

  lemma EntryLineSplits(e: PlayerScore)
    requires IsPlainEntry(e)
    ensures '\n' !in EntryLine(e) && EntryLine(e) != ""
    ensures IsScoreLine(EntryLine(e)) && ScoreLineEntry(EntryLine(e)) == e
  {
    var parts := [e.name, e.score, e.lives];
    assert parts[1..] == [e.score, e.lives];
    assert [e.score, e.lives][1..] == [e.lives];
    calc {
      Join(parts, ':');
      e.name + [':'] + Join([e.score, e.lives], ':');
      e.name + [':'] + (e.score + [':'] + Join([e.lives], ':'));
      e.name + [':'] + (e.score + [':'] + e.lives);
      EntryLine(e);
    }
    JavaSplitJoin(parts, ':');
  }

  lemma PrefixJoin(prefix: string, parts: seq<string>, c: char)
    requires |parts| >= 1
    ensures prefix + Join(parts, c) == Join([prefix + parts[0]] + parts[1..], c)
  {
    var q := [prefix + parts[0]] + parts[1..];
    assert q[1..] == parts[1..];
  }

  /** The lines of a tagged reply: the tag and a space in front of the first line. */
  function Tagged(tag: string, lines: seq<string>): (t: seq<string>)
    requires |lines| >= 1
    ensures |t| == |lines|
  {
    [tag + " " + lines[0]] + lines[1..]
  }

  /** Tagging keeps the lines free of newlines and the last one non-empty. */
  lemma TaggedClean(tag: string, lines: seq<string>)
    requires '\n' !in tag
    requires |lines| >= 1 && lines[|lines| - 1] != ""
    requires forall i :: 0 <= i < |lines| ==> '\n' !in lines[i]
    ensures Tagged(tag, lines)[|lines| - 1] != ""
    ensures forall i :: 0 <= i < |lines| ==> '\n' !in Tagged(tag, lines)[i]
  {
    var t := Tagged(tag, lines);
    assert t[0] == tag + [' '] + lines[0];
    assert '\n' !in lines[0];
    forall i | 1 <= i < |lines|
      ensures t[i] == lines[i]
    {
      assert t[i] == lines[1..][i - 1];
    }
  }

  /** Splitting a tagged reply at newlines gives its lines, the tag still on the first. */
  lemma TaggedSplit(tag: string, lines: seq<string>)
    requires '\n' !in tag
    requires |lines| >= 1 && lines[|lines| - 1] != ""
    requires forall i :: 0 <= i < |lines| ==> '\n' !in lines[i]
    ensures JavaSplit(tag + " " + Join(lines, '\n'), '\n') == Tagged(tag, lines)
  {
    var t := Tagged(tag, lines);
    var m := tag + " " + Join(lines, '\n');
    assert m == Join(t, '\n') by {
      PrefixJoin(tag + " ", lines, '\n');
    }
    assert JavaSplit(Join(t, '\n'), '\n') == t by {
      TaggedClean(tag, lines);
      JavaSplitJoin(t, '\n');
    }
  }

  /** A tag, a space and newline-joined lines read back as those lines. */
  lemma TaggedLines(tag: string, lines: seq<string>)
    requires ' ' !in tag && '\n' !in tag
    requires |lines| >= 1 && lines[|lines| - 1] != ""
    requires forall i :: 0 <= i < |lines| ==> '\n' !in lines[i]
    ensures ScoreLines(tag + " " + Join(lines, '\n')) == lines
  {
    var tagged := Tagged(tag, lines);
    TaggedSplit(tag, lines);
    assert AfterFirst(tagged[0], ' ') == lines[0] by {
      assert tagged[0] == tag + [' '] + lines[0];
      IndexAfterPrefix(tag, ' ', lines[0]);
    }
    assert tagged[1..] == lines[1..];
  }

  /** The lines of a SCORES reply built from plain entries are the entries' lines. */
  lemma ScoreLinesOf(entries: seq<PlayerScore>)
    requires |entries| >= 1 && forall i :: 0 <= i < |entries| ==> IsPlainEntry(entries[i])
    ensures ScoreLines("SCORES " + Join(EntryLines(entries), '\n')) == EntryLines(entries)
  {
    var lines := EntryLines(entries);
    forall i | 0 <= i < |entries|
      ensures '\n' !in lines[i] && lines[i] != ""
    {
      EntryLineSplits(entries[i]);
    }
    assert "SCORES " == "SCORES" + " ";
    TaggedLines("SCORES", lines);
  }

  /**
    * A SCORES reply the server builds from plain entries is read back as
    * exactly those entries, in order.
    */
  lemma ScoresRoundTrip(entries: seq<PlayerScore>)
    requires |entries| >= 1 && forall i :: 0 <= i < |entries| ==> IsPlainEntry(entries[i])
    ensures IsScoresMessage("SCORES " + Join(EntryLines(entries), '\n'))
    ensures ScoreTable("SCORES " + Join(EntryLines(entries), '\n')) == entries
  {
    var lines := EntryLines(entries);
    ScoreLinesOf(entries);
    forall i | 0 <= i < |entries|
      ensures IsScoreLine(lines[i]) && ScoreLineEntry(lines[i]) == entries[i]
    {
      EntryLineSplits(entries[i]);
    }
  }
}
