/**
 What the log reader of fear_server_utils.py guarantees, stated over the
 pure model in ServerModel.dfy: the priority of the dispatch chain, the
 effect of each handler on the status (in terms of where the regular
 expressions match, not of the search code), the filter behind
 `disconnect_player`, when a line raises `IndexError`, an invariant every
 reachable status keeps, and a few whole-log scenarios.
 */
module ServerProperties {
  import opened PyStrings
  import opened Patterns
  import opened ServerModel

  // ---- the dispatch chain ----

  /** Position of each rule in the chain */
  function Rank(h: Handler): nat {
    match h
    case LoadWorldLine => 0
    case WorldLoadedLine => 1
    case ConnectLine => 2
    case DisconnectLine => 3
    case DisplayNameLine => 4
    case ChatLine => 5
    case OtherLine => 6
  }

  /** The test of each rule on its own, as a table */
  predicate Guard(h: Handler, line: string, flag: int) {
    match h
    case LoadWorldLine => StartsWith(line, LoadingWorldPrefix)
    case WorldLoadedLine => StartsWith(line, WorldLoadedPrefix) && flag == 1
    case ConnectLine => EndsWith(line, ClientConnectedSuffix)
    case DisconnectLine => EndsWith(line, ClientDisconnectedSuffix)
    case DisplayNameLine => HasDisplayNameTag(line)
    case ChatLine => Contains(line, ChatTag)
    case OtherLine => true
  }

  /** First match wins: a line goes to the one rule whose test holds while every earlier test fails */
  lemma ClassifyIsFirstMatch(line: string, flag: int, h: Handler)
    ensures Classify(line, flag) == h <==>
            Guard(h, line, flag) && forall h' :: Rank(h') < Rank(h) ==> !Guard(h', line, flag)
  {
    var c := Classify(line, flag);
    assert Guard(c, line, flag);
    if Rank(h) < Rank(c) {
      assert !Guard(h, line, flag);
    }
  }

  /** A "Loading world" line only loads a world, whatever it ends with and whatever the flag */
  lemma LoadingWorldLineOnlyLoads(st: Status, line: string)
    requires StartsWith(line, LoadingWorldPrefix)
    ensures Classify(line, st.loadingWorldFlag) == LoadWorldLine
    ensures Step(st, line) == Ok(LoadWorld(st, line))
  {
  }

  /** Lines starting with the two world prefixes are told apart by their first character */
  lemma WorldPrefixesExclusive(line: string)
    ensures !(StartsWith(line, LoadingWorldPrefix) && StartsWith(line, WorldLoadedPrefix))
  {
    if StartsWith(line, LoadingWorldPrefix) {
      assert line[0] == 'L';
    }
  }

  /** The connect and disconnect suffixes never both end a line, so their order in the chain does not matter */
  lemma ConnectDisconnectExclusive(line: string)
    ensures !(EndsWith(line, ClientConnectedSuffix) && EndsWith(line, ClientDisconnectedSuffix))
  {
    if EndsWith(line, ClientConnectedSuffix) {
      assert line[|line| - |ClientConnectedSuffix|] == 'C';
      assert ClientDisconnectedSuffix[|ClientDisconnectedSuffix| - |ClientConnectedSuffix|] == 'e';
    }
  }

  // ---- the world state machine ----

  /**
   `load_world` raises the flag; the world being loaded becomes group 1 of the
   leftmost match of `\\(\w+)\n`, or `LoadFailed` when there is none; the
   current world and the players stay as they were.
   */
  lemma LoadWorldEffect(st: Status, line: string)
    ensures LoadWorld(st, line).loadingWorldFlag == 1
    ensures LoadWorld(st, line).currentWorld == st.currentWorld
    ensures LoadWorld(st, line).playersConnected == st.playersConnected
    ensures (forall i, e :: !WorldNameMatch(line, i, e)) ==> LoadWorld(st, line).worldBeingLoaded == LoadFailed
    ensures forall i, e :: WorldNameMatch(line, i, e) && (forall i', e' :: WorldNameMatch(line, i', e') ==> i <= i')
                           ==> LoadWorld(st, line).worldBeingLoaded == line[i + 1..e]
  {
    forall i, e | WorldNameMatch(line, i, e) && (forall i', e' :: WorldNameMatch(line, i', e') ==> i <= i')
      ensures LoadWorld(st, line).worldBeingLoaded == line[i + 1..e]
    {
      var i0, e0 :| WorldNameMatch(line, i0, e0) && WorldName(line).value == line[i0 + 1..e0]
                    && forall i', e' :: WorldNameMatch(line, i', e') ==> i0 <= i';
      assert i0 == i;
      WorldNameMatchUnique(line, i, e, e0);
    }
  }

  /** While the flag is 1, a "World loaded" line commits the world being loaded and resets the loading fields */
  lemma WorldLoadedWhileLoading(st: Status, line: string)
    requires st.loadingWorldFlag == 1 && StartsWith(line, WorldLoadedPrefix)
    ensures Step(st, line) == Ok(Status(0, NoWorldLoading, st.worldBeingLoaded, st.playersConnected))
  {
    WorldPrefixesExclusive(line);
  }

  /**
   While the flag is not 1, a "World loaded" line is not a world event: it
   goes on to the later tests exactly as it would with the flag at 0, and
   whatever they do leaves the world fields alone.
   */
  lemma WorldLoadedWhileIdle(st: Status, line: string)
    requires st.loadingWorldFlag != 1 && StartsWith(line, WorldLoadedPrefix)
    ensures Classify(line, st.loadingWorldFlag) !in {LoadWorldLine, WorldLoadedLine}
    ensures Classify(line, st.loadingWorldFlag) == Classify(line, 0)
    ensures Step(st, line).Ok? ==> (Step(st, line).value.loadingWorldFlag == st.loadingWorldFlag
                                    && Step(st, line).value.worldBeingLoaded == st.worldBeingLoaded
                                    && Step(st, line).value.currentWorld == st.currentWorld)
  {
    WorldPrefixesExclusive(line);
    WorldFieldsOnlyFromWorldLines(st, line);
  }

  /** Only the two world rules touch the flag and the world fields */
  lemma WorldFieldsOnlyFromWorldLines(st: Status, line: string)
    requires Classify(line, st.loadingWorldFlag) !in {LoadWorldLine, WorldLoadedLine}
    ensures Step(st, line).Ok? ==> (Step(st, line).value.loadingWorldFlag == st.loadingWorldFlag
                                    && Step(st, line).value.worldBeingLoaded == st.worldBeingLoaded
                                    && Step(st, line).value.currentWorld == st.currentWorld)
  {
  }

  // ---- `disconnect_player`'s filter ----

  /** Number of records named `name` */
  function CountNamed(players: seq<Player>, name: string): nat
  {
    if players == [] then 0
    else (if players[0].gameName == name then 1 else 0) + CountNamed(players[1..], name)
  }

  lemma {:induction false} CountNamedAppend(a: seq<Player>, b: seq<Player>, name: string)
    ensures CountNamed(a + b, name) == CountNamed(a, name) + CountNamed(b, name)
    decreases |a|
  {
    if a != [] {
      assert (a + b)[1..] == a[1..] + b;
      CountNamedAppend(a[1..], b, name);
    } else {
      assert a + b == b;
    }
  }

  /** The filter distributes over concatenation: the records that stay keep their order */
  lemma {:induction false} WithoutNameAppend(a: seq<Player>, b: seq<Player>, name: string)
    ensures WithoutName(a + b, name) == WithoutName(a, name) + WithoutName(b, name)
    decreases |a|
  {
    if a == [] {
      assert a + b == b;
    } else {
      assert (a + b)[1..] == a[1..] + b;
      WithoutNameAppend(a[1..], b, name);
    }
  }

  /**
   A record is in the filtered list exactly when it was in the list and has
   another name; so no record named `name` remains, and the length drops by
   the number of records that had it.
   */
  lemma {:induction false} WithoutNameMembers(players: seq<Player>, name: string)
    ensures forall p :: p in WithoutName(players, name) <==> p in players && p.gameName != name
    ensures |WithoutName(players, name)| == |players| - CountNamed(players, name)
    decreases |players|
  {
    if players != [] {
      WithoutNameMembers(players[1..], name);
      assert players == [players[0]] + players[1..];
    }
  }

  /** With no record named `name`, the filter changes nothing */
  lemma {:induction false} WithoutNameAbsent(players: seq<Player>, name: string)
    requires forall i :: 0 <= i < |players| ==> players[i].gameName != name
    ensures WithoutName(players, name) == players
    decreases |players|
  {
    if players != [] {
      WithoutNameAbsent(players[1..], name);
      assert players == [players[0]] + players[1..];
    }
  }

  /** Filtering twice by the same name is filtering once */
  lemma WithoutNameIdempotent(players: seq<Player>, name: string)
    ensures WithoutName(WithoutName(players, name), name) == WithoutName(players, name)
  {
    var r := WithoutName(players, name);
    WithoutNameMembers(players, name);
    assert forall i :: 0 <= i < |r| ==> r[i] in r;
    WithoutNameAbsent(r, name);
  }

  // ---- the player handlers ----

  /**
   `connect_player` raises IndexError exactly on lines with fewer than three
   closing brackets; otherwise it appends one record and leaves the others as
   they were, even when a record with the same name is already there (its
   count goes up by one). The new record takes columns 3, 0, 1 and 2 without
   their first two characters, and empty identity fields.
   */
  lemma ConnectPlayerEffect(st: Status, line: string)
    ensures ConnectPlayer(st, line).Ok? <==> Count(line, ColumnEnd) >= 3
    ensures ConnectPlayer(st, line).Ok? ==>
      var r := ConnectPlayer(st, line).value;
      var name := Column(line, 3).value;
      && |r.playersConnected| == |st.playersConnected| + 1
      && r.playersConnected[..|st.playersConnected|] == st.playersConnected
      && r.playersConnected[|st.playersConnected|]
         == Player(name, Column(line, 0).value, Column(line, 1).value, Column(line, 2).value, "", "", "")
      && CountNamed(r.playersConnected, name) == CountNamed(st.playersConnected, name) + 1
      && r.(playersConnected := st.playersConnected) == st
  {
    if ConnectPlayer(st, line).Ok? {
      var r := ConnectPlayer(st, line).value;
      var name := Column(line, 3).value;
      var added := r.playersConnected[|st.playersConnected|];
      CountNamedAppend(st.playersConnected, [added], name);
      assert CountNamed([added], name) == 1 by {
        assert [added][1..] == [];
      }
    }
  }

  /**
   `disconnect_player` raises IndexError exactly on lines with fewer than three
   closing brackets; otherwise the list becomes the old one without the
   records named in column 3, the others in their old order; applying the
   same line again changes nothing more.
   */
  lemma DisconnectPlayerEffect(st: Status, line: string)
    ensures DisconnectPlayer(st, line).Ok? <==> Count(line, ColumnEnd) >= 3
    ensures DisconnectPlayer(st, line).Ok? ==>
      var r := DisconnectPlayer(st, line).value;
      var name := Column(line, 3).value;
      && r.playersConnected == WithoutName(st.playersConnected, name)
      && (forall p :: p in r.playersConnected <==> p in st.playersConnected && p.gameName != name)
      && r.(playersConnected := st.playersConnected) == st
      && DisconnectPlayer(r, line) == Ok(r)
  {
    if DisconnectPlayer(st, line).Ok? {
      var name := Column(line, 3).value;
      WithoutNameMembers(st.playersConnected, name);
      WithoutNameIdempotent(st.playersConnected, name);
    }
  }

  /** A disconnect for a name with no record leaves the status as it was */
  lemma DisconnectUnknownPlayer(st: Status, line: string)
    requires Column(line, 3).Ok?
    requires forall i :: 0 <= i < |st.playersConnected| ==> st.playersConnected[i].gameName != Column(line, 3).value
    ensures DisconnectPlayer(st, line) == Ok(st)
  {
    WithoutNameAbsent(st.playersConnected, Column(line, 3).value);
  }

  /** The leftmost match of `-- Display Name:\s*(\S+)` is what the search returns: a non-empty token without whitespace */
  lemma LeftmostDisplayName(line: string, i: int, g: int, e: int)
    requires DisplayNameMatch(line, i, g, e)
    requires forall i', g', e' :: DisplayNameMatch(line, i', g', e') ==> i <= i'
    ensures DisplayName(line) == Some(line[g..e])
    ensures |line[g..e]| > 0 && forall k :: 0 <= k < |line[g..e]| ==> !IsSpace(line[g..e][k])
  {
    var i0, g0, e0 :| DisplayNameMatch(line, i0, g0, e0) && DisplayName(line).value == line[g0..e0]
                      && forall i', g', e' :: DisplayNameMatch(line, i', g', e') ==> i0 <= i';
    assert i0 == i;
    DisplayNameMatchUnique(line, i, g, e, g0, e0);
  }

  /** `add_display_name` raises IndexError exactly on lines with fewer than three closing brackets */
  lemma AddDisplayNameRaises(st: Status, line: string)
    ensures AddDisplayName(st, line).IndexError? <==> Count(line, ColumnEnd) < 3
  {
  }

  /** When `-- Display Name:\s*(\S+)` does not match, `add_display_name` changes nothing */
  lemma AddDisplayNameWithoutMatch(st: Status, line: string)
    requires Count(line, ColumnEnd) >= 3
    requires forall i, g, e :: !DisplayNameMatch(line, i, g, e)
    ensures AddDisplayName(st, line) == Ok(st)
  {
  }

  /**
   When the leftmost match of `-- Display Name:\s*(\S+)` captures
   `line[g..e]`, every record named in column 3 gets that token as its site
   name, every other record gets `NameMismatch`, and nothing else changes.
   */
  lemma AddDisplayNameWithMatch(st: Status, line: string, i: int, g: int, e: int)
    requires Count(line, ColumnEnd) >= 3
    requires DisplayNameMatch(line, i, g, e)
    requires forall i', g', e' :: DisplayNameMatch(line, i', g', e') ==> i <= i'
    ensures AddDisplayName(st, line).Ok?
    ensures var r := AddDisplayName(st, line).value;
            var name := Column(line, 3).value;
            && |r.playersConnected| == |st.playersConnected|
            && (forall k :: 0 <= k < |st.playersConnected| ==>
                  r.playersConnected[k] == st.playersConnected[k].(siteName :=
                    if st.playersConnected[k].gameName == name then line[g..e] else NameMismatch))
            && r.(playersConnected := st.playersConnected) == st
  {
    var token := line[g..e];
    LeftmostDisplayName(line, i, g, e);
    StripNoSpace(token);
    var name := Column(line, 3).value;
    var players := TagAll(st.playersConnected, name, token);
    assert AddDisplayName(st, line) == Ok(st.(playersConnected := players));
    forall k | 0 <= k < |st.playersConnected|
      ensures players[k] == Tagged(st.playersConnected[k], name, token)
    {
    }
  }

  // ---- exceptions and lines that change nothing ----

  /** A line raises IndexError exactly when it reaches one of the three player handlers with fewer than three closing brackets */
  lemma StepRaisesExactly(st: Status, line: string)
    ensures Step(st, line).IndexError? <==>
            Classify(line, st.loadingWorldFlag) in {ConnectLine, DisconnectLine, DisplayNameLine}
            && Count(line, ColumnEnd) < 3
  {
  }

  /** Chat lines and lines no rule takes leave the status unchanged */
  lemma IgnoredLinesChangeNothing(st: Status, line: string)
    requires Classify(line, st.loadingWorldFlag) in {ChatLine, OtherLine}
    ensures Step(st, line) == Ok(st)
  {
  }

  // ---- an invariant of every reachable status ----

  /** A world name as `\w+` captures it */
  predicate IsWorldName(w: string) {
    |w| > 0 && forall k :: 0 <= k < |w| ==> IsWord(w[k])
  }

  /** What a record can look like: a bracket-free game name, identity fields never set, a site name that is empty, the mismatch marker or one token */
  predicate WellFormedPlayer(p: Player) {
    && ColumnEnd !in p.gameName
    && p.sec2CdVerified == ""
    && p.guid == ""
    && (p.siteName == "" || p.siteName == NameMismatch
        || (|p.siteName| > 0 && forall k :: 0 <= k < |p.siteName| ==> !IsSpace(p.siteName[k])))
  }

  /**
   The flag is 0 or 1; at 0 no world is being loaded; at 1 the world being
   loaded is a captured name or `LoadFailed`; the current world is the initial
   marker, a captured name or `LoadFailed` (never `NoWorldLoading`); every
   record is well formed.
   */
  predicate Consistent(st: Status) {
    && (st.loadingWorldFlag == 0 || st.loadingWorldFlag == 1)
    && (st.loadingWorldFlag == 0 ==> st.worldBeingLoaded == NoWorldYet || st.worldBeingLoaded == NoWorldLoading)
    && (st.loadingWorldFlag == 1 ==> IsWorldName(st.worldBeingLoaded) || st.worldBeingLoaded == LoadFailed)
    && (st.currentWorld == NoWorldYet || IsWorldName(st.currentWorld) || st.currentWorld == LoadFailed)
    && forall p :: p in st.playersConnected ==> WellFormedPlayer(p)
  }

  lemma InitialConsistent()
    ensures Consistent(Initial())
  {
  }

  lemma LoadWorldKeepsConsistent(st: Status, line: string)
    requires Consistent(st)
    ensures Consistent(LoadWorld(st, line))
  {
    if WorldName(line).Some? {
      var i, e :| WorldNameMatch(line, i, e) && WorldName(line).value == line[i + 1..e];
      assert forall k :: i + 1 <= k < e ==> InClass(line[k], Word);
    }
  }

  lemma ConnectPlayerKeepsConsistent(st: Status, line: string)
    requires Consistent(st)
    ensures ConnectPlayer(st, line).Ok? ==> Consistent(ConnectPlayer(st, line).value)
  {
    if ConnectPlayer(st, line).Ok? {
      var r := ConnectPlayer(st, line).value;
      assert forall p :: p in r.playersConnected ==> p in st.playersConnected || p == r.playersConnected[|st.playersConnected|];
    }
  }

  lemma DisconnectPlayerKeepsConsistent(st: Status, line: string)
    requires Consistent(st)
    ensures DisconnectPlayer(st, line).Ok? ==> Consistent(DisconnectPlayer(st, line).value)
  {
    if DisconnectPlayer(st, line).Ok? {
      WithoutNameMembers(st.playersConnected, Column(line, 3).value);
    }
  }

  lemma AddDisplayNameKeepsConsistent(st: Status, line: string)
    requires Consistent(st)
    ensures AddDisplayName(st, line).Ok? ==> Consistent(AddDisplayName(st, line).value)
  {
    if AddDisplayName(st, line).Ok? && DisplayName(line).Some? {
      var site := DisplayName(line).value;
      StripNoSpace(site);
      var r := AddDisplayName(st, line).value;
      forall p | p in r.playersConnected ensures WellFormedPlayer(p) {
        var k :| 0 <= k < |r.playersConnected| && r.playersConnected[k] == p;
        assert st.playersConnected[k] in st.playersConnected;
      }
    }
  }

  /** Every line that does not raise keeps the status consistent */
  lemma StepKeepsConsistent(st: Status, line: string)
    requires Consistent(st)
    ensures Step(st, line).Ok? ==> Consistent(Step(st, line).value)
  {
    match Classify(line, st.loadingWorldFlag)
    case LoadWorldLine => LoadWorldKeepsConsistent(st, line);
    case WorldLoadedLine =>
    case ConnectLine => ConnectPlayerKeepsConsistent(st, line);
    case DisconnectLine => DisconnectPlayerKeepsConsistent(st, line);
    case DisplayNameLine => AddDisplayNameKeepsConsistent(st, line);
    case ChatLine =>
    case OtherLine =>
  }

  /** A run over any log keeps the status consistent, up to the end or up to the line that raised */
  lemma {:induction false} RunKeepsConsistent(st: Status, lines: seq<string>)
    requires Consistent(st)
    ensures Consistent(Run(st, lines).status)
    decreases |lines|
  {
    if lines != [] {
      RunKeepsConsistent(st, lines[..|lines| - 1]);
      var before := Run(st, lines[..|lines| - 1]);
      if before.Finished? {
        StepKeepsConsistent(before.status, lines[|lines| - 1]);
      }
    }
  }

  /** Every status the script can reach from its start is consistent */
  lemma ReachableConsistent(lines: seq<string>)
    ensures Consistent(Run(Initial(), lines).status)
  {
    RunKeepsConsistent(Initial(), lines);
  }

  // ---- whole-log scenarios ----

  /** Once a line has raised, the lines after it are never read */
  lemma {:induction false} RunStopsAtCrash(st: Status, lines: seq<string>, k: nat)
    requires k <= |lines| && Run(st, lines[..k]).Crashed?
    ensures Run(st, lines) == Run(st, lines[..k])
    decreases |lines|
  {
    if k < |lines| {
      var init := lines[..|lines| - 1];
      assert init[..k] == lines[..k];
      RunStopsAtCrash(st, init, k);
    } else {
      assert lines[..k] == lines;
    }
  }

  /** A run over two lines is two steps */
  lemma RunTwo(st: Status, a: string, b: string)
    ensures Run(st, [a, b]) ==
      match Step(st, a)
      case IndexError => Crashed(st, 0)
      case Ok(s1) =>
        match Step(s1, b)
        case IndexError => Crashed(s1, 1)
        case Ok(s2) => Finished(s2)
  {
    assert [a, b][..1] == [a];
    assert [a][..0] == [];
    assert Run(st, [a]) == match Step(st, a) case IndexError => Crashed(st, 0) case Ok(s1) => Finished(s1);
  }

  /** In `pre + "\" + w + "\n"` with no newline in `pre`, the world-name pattern captures `w` */
  lemma WorldNameAtLineEnd(pre: string, w: string)
    requires '\n' !in pre && IsWorldName(w)
    ensures WorldName(pre + "\\" + w + "\n") == Some(w)
  {
    var s := pre + "\\" + w + "\n";
    var n := |pre|;
    assert s[n] == '\\' && s[n + 1..|s| - 1] == w && s[|s| - 1] == '\n';
    assert AllIn(s, n + 1, |s| - 1, Word) by {
      forall k | n + 1 <= k < |s| - 1 ensures InClass(s[k], Word) {
        assert s[k] == w[k - n - 1];
      }
    }
    assert WorldNameMatch(s, n, |s| - 1);
    forall i, e | WorldNameMatch(s, i, e) ensures n <= i {
    }
    var i0, e0 :| WorldNameMatch(s, i0, e0) && WorldName(s).value == s[i0 + 1..e0]
                  && forall i', e' :: WorldNameMatch(s, i', e') ==> i0 <= i';
    assert i0 == n;
    WorldNameMatchUnique(s, n, e0, |s| - 1);
  }

  /**
   A "Loading world" line ending in `\w\n` followed by a "World loaded" line
   makes `w` the current world, lowers the flag and resets the world being
   loaded, from any status, without touching the players.
   */
  lemma LoadThenLoaded(st: Status, pre: string, w: string, loaded: string)
    requires StartsWith(pre, LoadingWorldPrefix) && '\n' !in pre && IsWorldName(w)
    requires StartsWith(loaded, WorldLoadedPrefix)
    ensures Run(st, [pre + "\\" + w + "\n", loaded])
            == Finished(Status(0, NoWorldLoading, w, st.playersConnected))
  {
    var line := pre + "\\" + w + "\n";
    assert line[..|LoadingWorldPrefix|] == pre[..|LoadingWorldPrefix|];
    WorldNameAtLineEnd(pre, w);
    RunTwo(st, line, loaded);
    WorldLoadedWhileLoading(LoadWorld(st, line), loaded);
  }

  /** A line of four bracket-free columns, each closed by `]`, splits into those columns and the pieces of the rest */
  lemma SplitColumns(c0: string, c1: string, c2: string, c3: string, rest: string)
    requires ColumnEnd !in c0 && ColumnEnd !in c1 && ColumnEnd !in c2 && ColumnEnd !in c3
    ensures Split(c0 + [ColumnEnd] + (c1 + [ColumnEnd] + (c2 + [ColumnEnd] + (c3 + [ColumnEnd] + rest))), ColumnEnd)
            == [c0, c1, c2, c3] + Split(rest, ColumnEnd)
  {
    var tail := Split(rest, ColumnEnd);
    var t2 := c2 + [ColumnEnd] + (c3 + [ColumnEnd] + rest);
    SplitTwoColumns(c2, c3, rest);
    SplitTwoColumns(c0, c1, t2);
    assert [c0, c1] + ([c2, c3] + tail) == [c0, c1, c2, c3] + tail;
  }

  /** Two bracket-free columns, each closed by `]`, followed by `rest` */
  lemma SplitTwoColumns(a: string, b: string, rest: string)
    requires ColumnEnd !in a && ColumnEnd !in b
    ensures Split(a + [ColumnEnd] + (b + [ColumnEnd] + rest), ColumnEnd) == [a, b] + Split(rest, ColumnEnd)
  {
    SplitAfterPiece(b, ColumnEnd, rest);
    SplitAfterPiece(a, ColumnEnd, b + [ColumnEnd] + rest);
    assert [a] + ([b] + Split(rest, ColumnEnd)) == [a, b] + Split(rest, ColumnEnd);
  }

  /**
   Whatever a line looks like, cut it into its bracket-free pieces: column
   `k` is piece `k` without its first two characters when there is such a
   piece, and `IndexError` when there is not.
   */
  lemma ColumnOfPieces(pieces: seq<string>, k: nat)
    requires |pieces| >= 1
    requires forall i :: 0 <= i < |pieces| ==> ColumnEnd !in pieces[i]
    ensures k < |pieces| ==> Column(Join(pieces, ColumnEnd), k) == Ok(SliceFrom(pieces[k], 2))
    ensures k >= |pieces| ==> Column(Join(pieces, ColumnEnd), k) == IndexError
  {
    SplitUnique(pieces, ColumnEnd);
  }

  /** The four columns of such a line, each without its first two characters */
  lemma ColumnsOf(c0: string, c1: string, c2: string, c3: string, rest: string)
    requires ColumnEnd !in c0 && ColumnEnd !in c1 && ColumnEnd !in c2 && ColumnEnd !in c3
    ensures var line := c0 + [ColumnEnd] + (c1 + [ColumnEnd] + (c2 + [ColumnEnd] + (c3 + [ColumnEnd] + rest)));
            && Column(line, 0) == Ok(SliceFrom(c0, 2))
            && Column(line, 1) == Ok(SliceFrom(c1, 2))
            && Column(line, 2) == Ok(SliceFrom(c2, 2))
            && Column(line, 3) == Ok(SliceFrom(c3, 2))
  {
    SplitColumns(c0, c1, c2, c3, rest);
  }

  /**
   A player connects and later disconnects (same column 3): afterwards no
   record with that name is left, not even one from an earlier duplicate
   connect, and the other records are those the status had before, in order.
   */
  lemma ConnectThenDisconnect(st: Status, connect: string, disconnect: string, name: string)
    requires Classify(connect, st.loadingWorldFlag) == ConnectLine
    requires Classify(disconnect, st.loadingWorldFlag) == DisconnectLine
    requires Column(connect, 3) == Ok(name) && Column(disconnect, 3) == Ok(name)
    ensures Run(st, [connect, disconnect])
            == Finished(st.(playersConnected := WithoutName(st.playersConnected, name)))
  {
    RunTwo(st, connect, disconnect);
    assert Step(st, connect) == ConnectPlayer(st, connect);
    var s1 := ConnectPlayer(st, connect).value;
    assert Step(s1, disconnect) == DisconnectPlayer(s1, disconnect);
    var added := s1.playersConnected[|st.playersConnected|];
    assert s1.playersConnected == st.playersConnected + [added];
    WithoutNameAppend(st.playersConnected, [added], name);
    assert [added][1..] == [];
  }

  /** Two identical connect lines leave two records with that name: `connect_player` does not look for duplicates */
  lemma DuplicateConnect(st: Status, connect: string)
    requires Classify(connect, st.loadingWorldFlag) == ConnectLine && Column(connect, 3).Ok?
    ensures Run(st, [connect, connect]).Finished?
    ensures var r := Run(st, [connect, connect]).status;
            CountNamed(r.playersConnected, Column(connect, 3).value)
            == CountNamed(st.playersConnected, Column(connect, 3).value) + 2
  {
    RunTwo(st, connect, connect);
    ConnectPlayerEffect(st, connect);
    ConnectPlayerEffect(ConnectPlayer(st, connect).value, connect);
  }
}
