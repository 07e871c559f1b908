/**
  * The list logic of the scores screen: a local high-score list kept in
  * descending order, an online list filled from the server's HISCORES
  * reply, and the conditional insertion of the score just played into
  * either. File, dialog and network I/O are replaced by parameters and a
  * ghost outbox.
  */
module ScoresScenes {
  import opened Optional
  import opened Text
  import opened Protocol

  /**
    * One row of a score list, a Pair<String, Integer>. The name is None
    * for a null key: the online entry written before the player was ever
    * asked for a name.
    */
  datatype ScoreEntry = ScoreEntry(name: Option<string>, score: int)

  /** The two lists addScore can be given. */
  datatype ScoreList = Local | Remote

  /** loadScores reads at most this many lines. */
  const MaxLoaded: nat := 10

  // ------------------------------------------------------------------ order

  /** A non-empty sequence is its front followed by its last element. */
  lemma Unsnoc<T>(s: seq<T>)
    requires s != []
    ensures s == s[..|s| - 1] + [s[|s| - 1]]
  {
  }

  /** Non-increasing by score: the order Comparator.comparing(p -> -p.getValue()) sorts into. */
  ghost predicate Sorted(s: seq<ScoreEntry>)
  {
    forall i, j :: 0 <= i < j < |s| ==> s[i].score >= s[j].score
  }

  /**
    * Places e after every entry of s whose score is at least e's and
    * before the entries with a smaller score, searching from the back.
    */
  function InsertDesc(s: seq<ScoreEntry>, e: ScoreEntry): (r: seq<ScoreEntry>)
    ensures |r| == |s| + 1
    ensures multiset(r) == multiset(s) + multiset{e}
  {
    if s == [] then [e]
    else if s[|s| - 1].score >= e.score then s + [e]
    else
      Unsnoc(s);
      InsertDesc(s[..|s| - 1], e) + [s[|s| - 1]]
  }

  /** The stable descending sort List.sort performs with that comparator, as insertion sort. */
  function SortDesc(s: seq<ScoreEntry>): (r: seq<ScoreEntry>)
    ensures |r| == |s|
  {
    if s == [] then [] else InsertDesc(SortDesc(s[..|s| - 1]), s[|s| - 1])
  }

  lemma {:induction false} InsertDescSorted(s: seq<ScoreEntry>, e: ScoreEntry)
    requires Sorted(s)
    ensures Sorted(InsertDesc(s, e))
  {
    if s == [] || s[|s| - 1].score >= e.score {
    } else {
      var init, last := s[..|s| - 1], s[|s| - 1];
      var r := InsertDesc(init, e);
      InsertDescSorted(init, e);
      forall i | 0 <= i < |r|
        ensures r[i].score >= last.score
      {
        assert r[i] in multiset(init) + multiset{e};
        if r[i] in multiset(init) {
          var k :| 0 <= k < |init| && init[k] == r[i];
          assert s[k] == init[k];
        }
      }
    }
  }

  /** orderScores leaves a list sorted and holding exactly the entries it held. */
  lemma {:induction false} SortDescSorted(s: seq<ScoreEntry>)
    ensures Sorted(SortDesc(s))
    ensures multiset(SortDesc(s)) == multiset(s)
  {
    if s != [] {
      var init := s[..|s| - 1];
      SortDescSorted(init);
      InsertDescSorted(SortDesc(init), s[|s| - 1]);
      Unsnoc(s);
    }
  }

  /** Sorting a list that is already in order changes nothing. */
  lemma {:induction false} SortDescOfSorted(s: seq<ScoreEntry>)
    requires Sorted(s)
    ensures SortDesc(s) == s
  {
    if s != [] {
      var init := s[..|s| - 1];
      SortDescOfSorted(init);
      Unsnoc(s);
    }
  }

  /** The entries of s with score k, in their order in s. */
  function WithScore(s: seq<ScoreEntry>, k: int): (r: seq<ScoreEntry>)
    ensures |r| <= |s|
  {
    if s == [] then []
    else WithScore(s[..|s| - 1], k) + (if s[|s| - 1].score == k then [s[|s| - 1]] else [])
  }

  lemma {:induction false} WithScoreAppend(s: seq<ScoreEntry>, t: seq<ScoreEntry>, k: int)
    ensures WithScore(s + t, k) == WithScore(s, k) + WithScore(t, k)
  {
    if t != [] {
      var init := t[..|t| - 1];
      var last := t[|t| - 1];
      var tail := if last.score == k then [last] else [];
      calc {
        WithScore(s + t, k);
        { assert (s + t)[..|s + t| - 1] == s + init && (s + t)[|s + t| - 1] == last; }
        WithScore(s + init, k) + tail;
        { WithScoreAppend(s, init, k); }
        WithScore(s, k) + WithScore(init, k) + tail;
        WithScore(s, k) + WithScore(t, k);
      }
    } else {
      assert s + t == s;
    }
  }

  lemma WithScoreSingle(x: ScoreEntry, k: int)
    ensures WithScore([x], k) == if x.score == k then [x] else []
  {
    assert [x][..0] == [];
  }

  lemma {:induction false} InsertDescStable(s: seq<ScoreEntry>, e: ScoreEntry, k: int)
    ensures WithScore(InsertDesc(s, e), k) == WithScore(s, k) + WithScore([e], k)
  {
    if s == [] {
      assert InsertDesc(s, e) == [e] && s + [e] == [e];
    } else if s[|s| - 1].score >= e.score {
      WithScoreAppend(s, [e], k);
    } else {
      var init, last := s[..|s| - 1], s[|s| - 1];
      WithScoreSingle(e, k);
      WithScoreSingle(last, k);
      calc {
        WithScore(InsertDesc(s, e), k);
        WithScore(InsertDesc(init, e) + [last], k);
        { WithScoreAppend(InsertDesc(init, e), [last], k); }
        WithScore(InsertDesc(init, e), k) + WithScore([last], k);
        { InsertDescStable(init, e, k); }
        WithScore(init, k) + WithScore([e], k) + WithScore([last], k);
        { if e.score == k { assert WithScore([last], k) == []; } else { assert WithScore([e], k) == []; } }
        WithScore(init, k) + WithScore([last], k) + WithScore([e], k);
        { Unsnoc(s); WithScoreAppend(init, [last], k); }
        WithScore(s, k) + WithScore([e], k);
      }
    }
  }

  /** The sort is stable: entries with equal scores keep their relative order. */
  lemma {:induction false} SortDescStable(s: seq<ScoreEntry>, k: int)
    ensures WithScore(SortDesc(s), k) == WithScore(s, k)
  {
    if s != [] {
      var init, last := s[..|s| - 1], s[|s| - 1];
      calc {
        WithScore(SortDesc(s), k);
        WithScore(InsertDesc(SortDesc(init), last), k);
        { InsertDescStable(SortDesc(init), last, k); }
        WithScore(SortDesc(init), k) + WithScore([last], k);
        { SortDescStable(init, k); }
        WithScore(init, k) + WithScore([last], k);
        { Unsnoc(s); WithScoreAppend(init, [last], k); }
        WithScore(s, k);
      }
    }
  }

  /** Some entry of s has a score strictly below v. */
  ghost predicate Beats(v: int, s: seq<ScoreEntry>)
  {
    exists i :: 0 <= i < |s| && v > s[i].score
  }

  /** On a sorted list it is enough to look at the last entry. */
  lemma BeatsSorted(v: int, s: seq<ScoreEntry>)
    requires Sorted(s)
    ensures Beats(v, s) <==> s != [] && v > s[|s| - 1].score
  {
    if Beats(v, s) {
      var i :| 0 <= i < |s| && v > s[i].score;
      assert s[i].score >= s[|s| - 1].score;
    }
  }

  // ------------------------------------------------------------------ lines

  /** A "name:score" line: at least two fields, the second an integer. */
  predicate IsEntryLine(line: string)
  {
    var fields := JavaSplit(line, ':');
    |fields| >= 2 && IsIntLiteral(fields[1])
  }

  function LineEntry(line: string): ScoreEntry
    requires IsEntryLine(line)
  {
    var fields := JavaSplit(line, ':');
    ScoreEntry(Some(fields[0]), ParseInt(fields[1]))
  }

  /** One entry per line, in order. */
  function LineEntries(lines: seq<string>): (t: seq<ScoreEntry>)
    requires forall i :: 0 <= i < |lines| ==> IsEntryLine(lines[i])
    ensures |t| == |lines| && forall i :: 0 <= i < |lines| ==> t[i] == LineEntry(lines[i])
  {
    seq(|lines|, i requires 0 <= i < |lines| => LineEntry(lines[i]))
  }

  lemma LineEntriesStep(lines: seq<string>, i: int)
    requires forall k :: 0 <= k < |lines| ==> IsEntryLine(lines[k])
    requires 0 <= i < |lines|
    ensures LineEntries(lines[..i + 1]) == LineEntries(lines[..i]) + [LineEntry(lines[i])]
  {
    assert lines[..i + 1][i] == lines[i];
  }

  lemma LineEntriesGrow(lines: seq<string>, i: int)
    requires forall k :: 0 <= k < |lines| ==> IsEntryLine(lines[k])
    requires 0 <= i < |lines|
    ensures multiset(LineEntries(lines[..i + 1])) == multiset(LineEntries(lines[..i])) + multiset{LineEntry(lines[i])}
  {
    LineEntriesStep(lines, i);
  }

  /** The local list after addScore has added each entry in turn, sorting after each. */
  function AddedLocally(s: seq<ScoreEntry>, entries: seq<ScoreEntry>): seq<ScoreEntry>
  {
    if entries == [] then s
    else SortDesc(AddedLocally(s, entries[..|entries| - 1]) + [entries[|entries| - 1]])
  }

  lemma AddedLocallyStep(s: seq<ScoreEntry>, entries: seq<ScoreEntry>, i: int)
    requires 0 <= i < |entries|
    ensures AddedLocally(s, entries[..i + 1]) == SortDesc(AddedLocally(s, entries[..i]) + [entries[i]])
  {
    assert entries[..i + 1][..i] == entries[..i];
  }

  /** Once anything has been added, the list is sorted. */
  lemma AddedLocallySorted(s: seq<ScoreEntry>, entries: seq<ScoreEntry>)
    requires entries != []
    ensures Sorted(AddedLocally(s, entries))
  {
    SortDescSorted(AddedLocally(s, entries[..|entries| - 1]) + [entries[|entries| - 1]]);
  }

  /** Adding entries one by one keeps every entry there was and adds exactly the new ones. */
  lemma {:induction false} AddedLocallyMultiset(s: seq<ScoreEntry>, entries: seq<ScoreEntry>)
    ensures multiset(AddedLocally(s, entries)) == multiset(s) + multiset(entries)
  {
    if entries != [] {
      var init, last := entries[..|entries| - 1], entries[|entries| - 1];
      AddedLocallyMultiset(s, init);
      SortDescSorted(AddedLocally(s, init) + [last]);
      Unsnoc(entries);
    }
  }

  /**
    * What loading leaves: the added entries sorted, each old and each new
    * entry kept; when at least one entry was added the list is already
    * sorted, so sorting it once more changes nothing.
    */
  lemma LoadedFacts(s: seq<ScoreEntry>, entries: seq<ScoreEntry>)
    ensures Sorted(SortDesc(AddedLocally(s, entries)))
    ensures multiset(SortDesc(AddedLocally(s, entries))) == multiset(s) + multiset(entries)
    ensures entries != [] ==> AddedLocally(s, entries) == SortDesc(AddedLocally(s, entries))
  {
    SortDescSorted(AddedLocally(s, entries));
    AddedLocallyMultiset(s, entries);
    if entries != [] {
      AddedLocallySorted(s, entries);
      SortDescOfSorted(AddedLocally(s, entries));
    }
  }

  /** How many lines loadScores takes from a file of n lines. */
  function Loaded(n: nat): (m: nat)
    ensures m <= n && m <= MaxLoaded
    ensures m == n || m == MaxLoaded
  {
    if n < MaxLoaded then n else MaxLoaded
  }

  /** A HISCORES reply: at least one line once the tag is removed, every line "name:score". */
  predicate IsOnlineScoresMessage(m: string)
  {
    var lines := ScoreLines(m);
    |lines| >= 1 && forall i :: 0 <= i < |lines| ==> IsEntryLine(lines[i])
  }

  /**
    * How many lines, from the first, are "name:score" lines: the loop of
    * loadOnlineScores adds that many entries before a line makes it throw.
    */
  function EntryPrefix(lines: seq<string>): (n: nat)
    ensures n <= |lines|
    ensures forall i :: 0 <= i < n ==> IsEntryLine(lines[i])
    ensures n < |lines| ==> !IsEntryLine(lines[n])
  {
    if lines == [] || !IsEntryLine(lines[0]) then 0
    else
      var rest := lines[1..];
      var n := 1 + EntryPrefix(rest);
      assert forall i :: 1 <= i <= n && i < |lines| ==> lines[i] == rest[i - 1];
      n
  }

  /** The entries loadOnlineScores adds from these lines, in order, up to the first line that is not "name:score". */
  function OnlineEntries(lines: seq<string>): (t: seq<ScoreEntry>)
    ensures |t| == EntryPrefix(lines) <= |lines|
    ensures forall i :: 0 <= i < |t| ==> t[i] == LineEntry(lines[i])
  {
    LineEntries(lines[..EntryPrefix(lines)])
  }

  /** The entries a HISCORES reply lists, in order. */
  function OnlineTable(m: string): seq<ScoreEntry>
    requires IsOnlineScoresMessage(m)
  {
    LineEntries(ScoreLines(m))
  }

  /** What String.format's %s writes for a name; a null name is written "null". */
  function NameText(name: Option<string>): string
  {
    match name
    case Some(n) => n
    case None => "null"
  }

  /** The text of one entry, as the server's lists and the HISCORE message write it. */
  function EntryText(e: ScoreEntry): string
  {
    NameText(e.name) + ":" + IntToString(e.score)
  }

  /** The message that submits a score to the online list. */
  function HiscoreMessage(e: ScoreEntry): string
  {
    "HISCORE " + EntryText(e)
  }

  /** An entry whose name survives the line format: present, and free of ':' and newlines. */
  predicate IsPlainName(e: ScoreEntry)
  {
    e.name.Some? && ':' !in e.name.value && '\n' !in e.name.value
  }

  function EntryTexts(entries: seq<ScoreEntry>): (r: seq<string>)
    ensures |r| == |entries|
    ensures forall i :: 0 <= i < |r| ==> r[i] == EntryText(entries[i])
  {
    seq(|entries|, i requires 0 <= i < |entries| => EntryText(entries[i]))
  }

  lemma EntryTextSplits(e: ScoreEntry)
    requires IsPlainName(e)
    ensures '\n' !in EntryText(e) && EntryText(e) != ""
    ensures IsEntryLine(EntryText(e)) && LineEntry(EntryText(e)) == e
  {
    var parts := [e.name.value, IntToString(e.score)];
    assert parts[1..] == [IntToString(e.score)];
    assert Join(parts, ':') == EntryText(e);
    JavaSplitJoin(parts, ':');
    IntRoundTrip(e.score);
  }

  /**
    * A tagged list of entries with plain names, one "name:score" line
    * each, reads back as exactly those entries, in order.
    */
  lemma OnlineRoundTrip(tag: string, entries: seq<ScoreEntry>)
    requires ' ' !in tag && '\n' !in tag
    requires |entries| >= 1 && forall i :: 0 <= i < |entries| ==> IsPlainName(entries[i])
    ensures IsOnlineScoresMessage(tag + " " + Join(EntryTexts(entries), '\n'))
    ensures OnlineTable(tag + " " + Join(EntryTexts(entries), '\n')) == entries
  {
    var lines := EntryTexts(entries);
    forall i | 0 <= i < |entries|
      ensures '\n' !in lines[i] && lines[i] != ""
      ensures IsEntryLine(lines[i]) && LineEntry(lines[i]) == entries[i]
    {
      EntryTextSplits(entries[i]);
    }
    TaggedLines(tag, lines);
  }

  /** The HISCORE message a player with a plain name sends carries exactly their entry. */
  lemma HiscoreRoundTrip(e: ScoreEntry)
    requires IsPlainName(e)
    ensures IsOnlineScoresMessage(HiscoreMessage(e)) && OnlineTable(HiscoreMessage(e)) == [e]
  {
    OnlineRoundTrip("HISCORE", [e]);
    assert EntryTexts([e]) == [EntryText(e)];
    assert "HISCORE " == "HISCORE" + " ";
  }

  /** A multiplayer leaderboard row whose score field is an integer. */
  predicate HasIntScore(t: PlayerScore)
  {
    IsIntLiteral(t.score)
  }

  /** The local rows addMultiplayerScores makes: name and parsed score, lives dropped. */
  function MultiplayerEntries(table: seq<PlayerScore>): (r: seq<ScoreEntry>)
    requires forall i :: 0 <= i < |table| ==> HasIntScore(table[i])
    ensures |r| == |table|
  {
    seq(|table|, i requires 0 <= i < |table| && HasIntScore(table[i]) => ScoreEntry(Some(table[i].name), ParseInt(table[i].score)))
  }

  /** Rows whose scores were written as integers give those integers back, and their names; lives play no part. */
  lemma MultiplayerEntriesOf(names: seq<string>, scores: seq<int>, lives: seq<string>)
    requires |names| == |scores| == |lives|
    ensures var table := seq(|names|, i requires 0 <= i < |names| => PlayerScore(names[i], IntToString(scores[i]), lives[i]));
      && (forall i :: 0 <= i < |table| ==> HasIntScore(table[i]))
      && MultiplayerEntries(table) == seq(|names|, i requires 0 <= i < |names| => ScoreEntry(Some(names[i]), scores[i]))
  {
    forall i | 0 <= i < |scores|
      ensures IsIntLiteral(IntToString(scores[i])) && ParseInt(IntToString(scores[i])) == scores[i]
    {
      IntRoundTrip(scores[i]);
    }
  }

  // ------------------------------------------------------------------ the screen

  class ScoresScene {
    /** The local high-score list, localScoresProperty. */
    var localScores: seq<ScoreEntry>
    /** The online high-score list, remoteScoresProperty. */
    var remoteScores: seq<ScoreEntry>
    /** The score of the single-player game just played; None (null) after a multiplayer game. */
    const currentScore: Option<int>
    /** The leaderboard of the multiplayer game just played; None (null) after a single-player game. */
    const multiplayerScores: Option<seq<PlayerScore>>
    /** The name the player typed; None (null) until asked. */
    var playerName: Option<string>
    /** Every message sent to the server, oldest first. */
    ghost var outbox: seq<string>

    /** The screen after a single-player game that scored score. */
    constructor AfterGame(score: int)
      ensures currentScore == Some(score) && multiplayerScores == None && playerName == None
      ensures localScores == [] && remoteScores == [] && outbox == []
    {
      currentScore, multiplayerScores, playerName := Some(score), None, None;
      localScores, remoteScores, outbox := [], [], [];
    }

    /** The screen after a multiplayer game with the given leaderboard. */
    constructor AfterMultiplayerGame(table: seq<PlayerScore>)
      ensures currentScore == None && multiplayerScores == Some(table) && playerName == None
      ensures localScores == [] && remoteScores == [] && outbox == []
    {
      currentScore, multiplayerScores, playerName := None, Some(table), None;
      localScores, remoteScores, outbox := [], [], [];
    }

    /** Appends one entry; the local list is re-sorted afterwards, the online list is not. */
    method AddScore(score: ScoreEntry, list: ScoreList)
      modifies this`localScores, this`remoteScores
      ensures list == Local ==>
        && localScores == SortDesc(old(localScores) + [score])
        && Sorted(localScores) && multiset(localScores) == multiset(old(localScores)) + multiset{score}
        && |localScores| == |old(localScores)| + 1
        && remoteScores == old(remoteScores)
      ensures list == Remote ==> remoteScores == old(remoteScores) + [score] && localScores == old(localScores)
    {
      if list == Remote {
        remoteScores := remoteScores + [score];
        return;
      }
      localScores := localScores + [score];
      OrderScores();
    }

    /** Sorts the local list into descending score order. */
    method OrderScores()
      modifies this`localScores
      ensures localScores == SortDesc(old(localScores))
      ensures Sorted(localScores) && multiset(localScores) == multiset(old(localScores))
      ensures Sorted(old(localScores)) ==> localScores == old(localScores)
    {
      SortDescSorted(localScores);
      if Sorted(localScores) {
        SortDescOfSorted(localScores);
      }
      localScores := SortDesc(localScores);
    }

    /** Sorts the online list into descending score order. */
    method OrderOnlineScores()
      modifies this`remoteScores
      ensures remoteScores == SortDesc(old(remoteScores))
      ensures Sorted(remoteScores) && multiset(remoteScores) == multiset(old(remoteScores))
    {
      SortDescSorted(remoteScores);
      remoteScores := SortDesc(remoteScores);
    }

    /**
      * Adds one local entry per multiplayer leaderboard row, in order and
      * unsorted, keeping the name and the parsed score.
      */
    method AddMultiplayerScores()
      requires multiplayerScores.Some?
      requires forall i :: 0 <= i < |multiplayerScores.value| ==> HasIntScore(multiplayerScores.value[i])
      modifies this`localScores
      ensures localScores == old(localScores) + MultiplayerEntries(multiplayerScores.value)
    {
      var table := multiplayerScores.value;
      for i := 0 to |table|
        invariant localScores == old(localScores) + MultiplayerEntries(table[..i])
      {
        assert MultiplayerEntries(table[..i + 1]) == MultiplayerEntries(table[..i]) + [ScoreEntry(Some(table[i].name), ParseInt(table[i].score))];
        localScores := localScores + [ScoreEntry(Some(table[i].name), ParseInt(table[i].score))];
      }
      assert table[..|table|] == table;
    }

    /**
      * Walks the local list until an entry scores less than the score just
      * played; then the name typed in the dialog is recorded and the score
      * inserted once, in order. When no entry scores less nothing changes.
      */
    method CompareScores(typedName: string)
      requires currentScore.Some?
      modifies this`localScores, this`remoteScores, this`playerName
      ensures Beats(currentScore.value, old(localScores)) ==>
        && playerName == Some(typedName)
        && localScores == SortDesc(old(localScores) + [ScoreEntry(Some(typedName), currentScore.value)])
      ensures !Beats(currentScore.value, old(localScores)) ==>
        playerName == old(playerName) && localScores == old(localScores)
      ensures remoteScores == old(remoteScores)
    {
      for i := 0 to |localScores|
        invariant forall k :: 0 <= k < i ==> currentScore.value <= localScores[k].score
      {
        if currentScore.value > localScores[i].score {
          playerName := Some(typedName);
          AddScore(ScoreEntry(playerName, currentScore.value), Local);
          return;
        }
      }
    }

    /**
      * Walks the online list until an entry scores less than the score just
      * played, and then submits the score. With no score (after a
      * multiplayer game) the comparison fails on the first entry.
      */
    method CompareOnlineScores() returns (failed: bool)
      modifies this`remoteScores, this`outbox
      ensures currentScore.None? ==>
        (failed <==> old(remoteScores) != []) && remoteScores == old(remoteScores) && outbox == old(outbox)
      ensures currentScore.Some? && Beats(currentScore.value, old(remoteScores)) ==>
        && !failed
        && remoteScores == SortDesc(old(remoteScores) + [ScoreEntry(playerName, currentScore.value)])
        && outbox == old(outbox) + [HiscoreMessage(ScoreEntry(playerName, currentScore.value))]
      ensures currentScore.Some? && !Beats(currentScore.value, old(remoteScores)) ==>
        !failed && remoteScores == old(remoteScores) && outbox == old(outbox)
    {
      for i := 0 to |remoteScores|
        invariant currentScore.Some? ==> forall k :: 0 <= k < i ==> currentScore.value <= remoteScores[k].score
        invariant currentScore.None? ==> i == 0
      {
        if currentScore.None? {
          // unboxing the null score throws
          return true;
        }
        if currentScore.value > remoteScores[i].score {
          WriteOnlineScore();
          return false;
        }
      }
      return false;
    }

    /** Sends the score to the server and adds it to the online list, which is then re-sorted. */
    method WriteOnlineScore()
      requires currentScore.Some?
      modifies this`remoteScores, this`outbox
      ensures outbox == old(outbox) + [HiscoreMessage(ScoreEntry(playerName, currentScore.value))]
      ensures remoteScores == SortDesc(old(remoteScores) + [ScoreEntry(playerName, currentScore.value)])
      ensures Sorted(remoteScores)
      ensures multiset(remoteScores) == multiset(old(remoteScores)) + multiset{ScoreEntry(playerName, currentScore.value)}
    {
      outbox := outbox + [HiscoreMessage(ScoreEntry(playerName, currentScore.value))];
      remoteScores := remoteScores + [ScoreEntry(playerName, currentScore.value)];
      OrderOnlineScores();
    }

    /**
      * Loads the lines of the scores file: one local entry per line for at
      * most the first ten lines, each added in order; the list ends sorted.
      */
    method LoadScores(fileLines: seq<string>)
      requires forall i :: 0 <= i < Loaded(|fileLines|) ==> IsEntryLine(fileLines[i])
      modifies this`localScores, this`remoteScores
      ensures localScores == SortDesc(AddedLocally(old(localScores), LineEntries(fileLines[..Loaded(|fileLines|)])))
      ensures Sorted(localScores)
      ensures multiset(localScores) == multiset(old(localScores)) + multiset(LineEntries(fileLines[..Loaded(|fileLines|)]))
      ensures remoteScores == old(remoteScores)
    {
      ghost var loaded := fileLines[..Loaded(|fileLines|)];
      ghost var entries := LineEntries(loaded);
      var i := 0;
      while i < |fileLines|
        invariant 0 <= i <= |loaded|
        invariant localScores == AddedLocally(old(localScores), entries[..i])
        invariant remoteScores == old(remoteScores)
      {
        if i >= MaxLoaded {
          assert entries[..i] == entries;
          LoadedFacts(old(localScores), entries);
          return;
        }
        var entry := LineEntry(fileLines[i]);
        assert entries[i] == entry;
        AddedLocallyStep(old(localScores), entries, i);
        AddScore(entry, Local);
        i := i + 1;
      }
      assert entries[..i] == entries;
      LoadedFacts(old(localScores), entries);
      OrderScores();
    }

    /**
      * Appends the entries of a HISCORES reply to the online list, in order
      * and unsorted. A reply that is not well formed makes the Java code
      * throw: with no line at all before anything is added, otherwise at
      * the first line that is not "name:score", after the lines before it
      * were added. That is `failed` here, with those lines kept.
      */
    method LoadOnlineScores(message: string) returns (failed: bool)
      modifies this`localScores, this`remoteScores
      ensures failed <==> !IsOnlineScoresMessage(message)
      ensures remoteScores == old(remoteScores) + OnlineEntries(ScoreLines(message))
      ensures !failed ==> remoteScores == old(remoteScores) + OnlineTable(message)
      ensures localScores == old(localScores)
    {
      var scoresSplitter := JavaSplit(message, '\n');
      if scoresSplitter == [] {
        // the message is only line breaks: scoresSplitter[0] throws
        assert ScoreLines(message) == [];
        return true;
      }
      scoresSplitter := scoresSplitter[0 := AfterFirst(scoresSplitter[0], ' ')];
      assert scoresSplitter == ScoreLines(message);
      failed := AddOnlineLines(scoresSplitter);
    }

    /**
      * The loop of loadOnlineScores: one online entry per line, appended in
      * order. A line without a second ':' field or whose second field is not
      * an integer throws, leaving the entries of the lines before it.
      */
    method AddOnlineLines(lines: seq<string>) returns (failed: bool)
      modifies this`localScores, this`remoteScores
      ensures failed <==> exists i :: 0 <= i < |lines| && !IsEntryLine(lines[i])
      ensures remoteScores == old(remoteScores) + OnlineEntries(lines)
      ensures !failed ==> remoteScores == old(remoteScores) + LineEntries(lines)
      ensures localScores == old(localScores)
    {
      ghost var good := lines[..EntryPrefix(lines)];
      var i := 0;
      while i < |lines|
        invariant 0 <= i <= |good|
        invariant remoteScores == old(remoteScores) + LineEntries(good[..i])
        invariant localScores == old(localScores)
      {
        var splitter := JavaSplit(lines[i], ':');
        if |splitter| < 2 || !IsIntLiteral(splitter[1]) {
          // splitter[1] or parseInt throws
          assert good[..i] == good;
          return true;
        }
        assert good[i] == lines[i];
        LineEntriesStep(good, i);
        AddScore(ScoreEntry(Some(splitter[0]), ParseInt(splitter[1])), Remote);
        i := i + 1;
      }
      assert good[..i] == good == lines;
      failed := false;
    }
  }
}
