/**
 The script fear_server_utils.py as it runs: one `ServerStatus` object whose
 fields the handlers assign in place, the per-line dispatch chain as `Step`,
 and the loop over the log as `ReadServerLog`. Every method is proved to
 leave the object holding exactly the status the pure model in
 ServerModel.dfy computes, so the properties proved there hold of it.
 */
module FearServer {
  import opened PyStrings
  import opened Patterns
  import opened ServerModel
  import ServerProperties

  /** The `server_status` dictionary */
  class ServerStatus {
    var loadingWorldFlag: int
    var worldBeingLoaded: string
    var currentWorld: string
    var playersConnected: seq<Player>

    /** The value the dictionary holds */
    function Value(): Status
      reads this
    {
      Status(loadingWorldFlag, worldBeingLoaded, currentWorld, playersConnected)
    }

    /** The dictionary literal the script starts from */
    constructor ()
      ensures Value() == Initial()
    {
      loadingWorldFlag := 0;
      worldBeingLoaded := NoWorldYet;
      currentWorld := NoWorldYet;
      playersConnected := [];
    }

    /** `load_world(line)` */
    method LoadWorld(line: string)
      modifies this
      ensures Value() == ServerModel.LoadWorld(old(Value()), line)
    {
      loadingWorldFlag := 1;
      var found := SearchWorldName(line, 0);
      if found.Some? {
        worldBeingLoaded := line[found.value.lo..found.value.hi];
      } else {
        worldBeingLoaded := LoadFailed;
      }
    }

    /** `set_current_world()` */
    method SetCurrentWorld()
      modifies this
      ensures Value() == ServerModel.SetCurrentWorld(old(Value()))
    {
      loadingWorldFlag := 0;
      currentWorld := worldBeingLoaded;
      worldBeingLoaded := NoWorldLoading;
    }

    /** `connect_player(line)`; `raised` when `split(']')[3]` raises, in which case nothing has changed */
    method ConnectPlayer(line: string) returns (raised: bool)
      modifies this
      ensures raised <==> ServerModel.ConnectPlayer(old(Value()), line).IndexError?
      ensures Value() == if raised then old(Value()) else ServerModel.ConnectPlayer(old(Value()), line).value
    {
      var details := Split(line, ColumnEnd);
      if |details| < 4 {
        return true;
      }
      var player := Player(SliceFrom(details[3], 2), SliceFrom(details[0], 2), SliceFrom(details[1], 2),
                           SliceFrom(details[2], 2), "", "", "");
      playersConnected := playersConnected + [player];
      raised := false;
    }

    /**
     `disconnect_player(line)`: the comprehension walks the list once and keeps
     the records with another name; `raised` when `split(']')[3]` raises
     */
    method DisconnectPlayer(line: string) returns (raised: bool)
      modifies this
      ensures raised <==> ServerModel.DisconnectPlayer(old(Value()), line).IndexError?
      ensures Value() == if raised then old(Value()) else ServerModel.DisconnectPlayer(old(Value()), line).value
    {
      var details := Split(line, ColumnEnd);
      if |details| < 4 {
        return true;
      }
      var player := SliceFrom(details[3], 2);
      var kept: seq<Player> := [];
      var i := 0;
      while i < |playersConnected|
        invariant 0 <= i <= |playersConnected|
        invariant kept == WithoutName(playersConnected[..i], player)
        invariant Value() == old(Value())
      {
        ServerProperties.WithoutNameAppend(playersConnected[..i], [playersConnected[i]], player);
        assert playersConnected[..i + 1] == playersConnected[..i] + [playersConnected[i]];
        if playersConnected[i].gameName != player {
          kept := kept + [playersConnected[i]];
        }
        i := i + 1;
      }
      assert playersConnected[..i] == playersConnected;
      playersConnected := kept;
      raised := false;
    }

    /**
     `add_display_name(line)`: when the line carries a display name, every
     record's site name is set in place; `raised` when `split(']')[3]` raises
     */
    method AddDisplayName(line: string) returns (raised: bool)
      modifies this
      ensures raised <==> ServerModel.AddDisplayName(old(Value()), line).IndexError?
      ensures Value() == if raised then old(Value()) else ServerModel.AddDisplayName(old(Value()), line).value
    {
      var details := Split(line, ColumnEnd);
      if |details| < 4 {
        return true;
      }
      raised := false;
      var gameName := SliceFrom(details[3], 2);
      assert Column(line, 3) == Ok(gameName);
      var found := DisplayName(line);
      if found.Some? {
        TagSiteNames(gameName, Strip(found.value));
      }
    }

    /**
     The loop of `add_display_name`: each record named `gameName` gets `site`
     as its site name, every other record gets `NameMismatch`
     */
    method TagSiteNames(gameName: string, site: string)
      modifies this
      ensures Value() == old(Value()).(playersConnected := TagAll(old(playersConnected), gameName, site))
    {
      var i := 0;
      while i < |playersConnected|
        invariant 0 <= i <= |playersConnected| == |old(playersConnected)|
        invariant forall k :: 0 <= k < i ==> playersConnected[k] == Tagged(old(playersConnected)[k], gameName, site)
        invariant forall k :: i <= k < |playersConnected| ==> playersConnected[k] == old(playersConnected)[k]
        invariant loadingWorldFlag == old(loadingWorldFlag) && worldBeingLoaded == old(worldBeingLoaded)
        invariant currentWorld == old(currentWorld)
      {
        if playersConnected[i].gameName == gameName {
          playersConnected := playersConnected[i := playersConnected[i].(siteName := site)];
        } else {
          playersConnected := playersConnected[i := playersConnected[i].(siteName := NameMismatch)];
        }
        i := i + 1;
      }
    }

    /**
     One pass of the loop body: the chain of tests, first match wins; a
     "World loaded" line while the flag is not 1 goes on to the later tests;
     chat lines and unmatched lines are only printed. `raised` when the
     handler raised `IndexError`, in which case nothing has changed.
     */
    method Step(line: string) returns (raised: bool)
      modifies this
      ensures raised <==> ServerModel.Step(old(Value()), line).IndexError?
      ensures Value() == if raised then old(Value()) else ServerModel.Step(old(Value()), line).value
    {
      ghost var st := Value();
      ghost var handler := Classify(line, loadingWorldFlag);
      if StartsWith(line, LoadingWorldPrefix) {
        assert handler == LoadWorldLine;
        LoadWorld(line);
        return false;
      }
      if StartsWith(line, WorldLoadedPrefix) && loadingWorldFlag == 1 {
        assert handler == WorldLoadedLine;
        SetCurrentWorld();
        return false;
      }
      if EndsWith(line, ClientConnectedSuffix) {
        assert handler == ConnectLine;
        assert ServerModel.Step(st, line) == ServerModel.ConnectPlayer(st, line);
        raised := ConnectPlayer(line);
        return;
      }
      if EndsWith(line, ClientDisconnectedSuffix) {
        assert handler == DisconnectLine;
        assert ServerModel.Step(st, line) == ServerModel.DisconnectPlayer(st, line);
        raised := DisconnectPlayer(line);
        return;
      }
      if HasDisplayNameTag(line) {
        assert handler == DisplayNameLine;
        assert ServerModel.Step(st, line) == ServerModel.AddDisplayName(st, line);
        raised := AddDisplayName(line);
        return;
      }
      assert handler in {ChatLine, OtherLine};
      raised := false;
    }
  }

  /**
   The script: build the initial status, then feed it the log's lines in
   order. It stops at the first line whose handler raises `IndexError`,
   reporting that line's index; the object then holds the status from just
   before that line.
   */
  method ReadServerLog(lines: seq<string>) returns (status: ServerStatus, failedLine: Option<nat>)
    ensures fresh(status)
    ensures Run(Initial(), lines) == if failedLine.Some? then Crashed(status.Value(), failedLine.value)
                                     else Finished(status.Value())
  {
    status := new ServerStatus();
    var i := 0;
    while i < |lines|
      invariant 0 <= i <= |lines|
      invariant Run(Initial(), lines[..i]) == Finished(status.Value())
    {
      ghost var before := status.Value();
      assert lines[..i + 1][..i] == lines[..i] && lines[..i + 1][i] == lines[i];
      var raised := status.Step(lines[i]);
      if raised {
        assert Run(Initial(), lines[..i + 1]) == Crashed(before, i);
        ServerProperties.RunStopsAtCrash(Initial(), lines, i + 1);
        return status, Some(i);
      }
      assert Run(Initial(), lines[..i + 1]) == Finished(Step(before, lines[i]).value);
      i := i + 1;
    }
    assert lines[..i] == lines;
    failedLine := None;
  }
}
