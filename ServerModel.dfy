/**
 The log reader of fear_server_utils.py as a pure state machine. A `Status`
 is the value of the script's `server_status` dictionary; each handler
 (`load_world`, `set_current_world`, `connect_player`, `disconnect_player`,
 `add_display_name`) is a function from the old status and the log line to
 the new one; `Classify` is the `if ... continue` chain that picks the
 handler, `Step` applies it and `Run` is the loop over the whole log. The
 class in FearServer.dfy does the same by updating fields in place and is
 proved against these functions.
 */
module ServerModel {
  import opened PyStrings
  import opened Patterns

  const LoadingWorldPrefix := "Loading world"
  const WorldLoadedPrefix := "World loaded"
  const ClientConnectedSuffix := "Client connected\n"
  const ClientDisconnectedSuffix := "Client disconnected\n"
  const ChatTag := "[CHAT]"

  /** What `world_being_loaded` becomes when a "Loading world" line names no world */
  const LoadFailed := "World loading seemed to fail."
  /** What `world_being_loaded` becomes once the world has loaded */
  const NoWorldLoading := "None"
  /** The starting value of both world fields */
  const NoWorldYet := "none"
  /** The `site_name` that `add_display_name` gives every player it was not about */
  const NameMismatch := "NAME MISMATCH!"
  /** Log lines are cut into columns at this character */
  const ColumnEnd := ']'

  /** One entry of `players_connected` */
  datatype Player = Player(
    gameName: string,
    connectTime: string,
    ipPort: string,
    ping: string,
    siteName: string,
    sec2CdVerified: string,
    guid: string)

  /** The `server_status` dictionary; `loadingWorldFlag` is the Python int 0 or 1 */
  datatype Status = Status(
    loadingWorldFlag: int,
    worldBeingLoaded: string,
    currentWorld: string,
    playersConnected: seq<Player>)

  /** A handler either returns the new status or raises `IndexError` from `split(']')[3]` */
  datatype Result<T> = Ok(value: T) | IndexError

  /** The status the script starts from */
  function Initial(): Status {
    Status(0, NoWorldYet, NoWorldYet, [])
  }

  /**
   `line.split(']')[k][2:]`: column `k` without its first two characters. It
   exists exactly when the line has at least `k` closing brackets, and it never
   contains one.
   */
  function Column(line: string, k: nat): (r: Result<string>)
    ensures r.Ok? <==> Count(line, ColumnEnd) >= k
    ensures r.Ok? ==> ColumnEnd !in r.value
  {
    var columns := Split(line, ColumnEnd);
    if k < |columns| then
      var c := SliceFrom(columns[k], 2);
      assert ColumnEnd !in columns[k];
      assert 2 <= |columns[k]| ==> columns[k] == columns[k][..2] + c;
      Ok(c)
    else IndexError
  }

  // ---- the world state machine ----

  /** `load_world`: raise the loading flag and remember the world named at the end of the line */
  function LoadWorld(st: Status, line: string): Status {
    var name := match WorldName(line) case Some(w) => w case None => LoadFailed;
    st.(loadingWorldFlag := 1, worldBeingLoaded := name)
  }

  /** `set_current_world`: the world being loaded becomes the current one */
  function SetCurrentWorld(st: Status): Status {
    st.(loadingWorldFlag := 0, currentWorld := st.worldBeingLoaded, worldBeingLoaded := NoWorldLoading)
  }

  // ---- the player list ----

  /** `connect_player`: append a record built from columns 3, 0, 1 and 2; nothing checks for a record with the same name */
  function ConnectPlayer(st: Status, line: string): Result<Status> {
    match Column(line, 3)
    case IndexError => IndexError
    case Ok(name) =>
      var player := Player(name, Column(line, 0).value, Column(line, 1).value, Column(line, 2).value, "", "", "");
      Ok(st.(playersConnected := st.playersConnected + [player]))
  }

  /** `[p for p in players if p['game_name'] != name]`: a sublist of the records that never holds one named `name` */
  function WithoutName(players: seq<Player>, name: string): (r: seq<Player>)
    ensures |r| <= |players|
    ensures forall i :: 0 <= i < |r| ==> r[i] in players && r[i].gameName != name
  {
    if players == [] then []
    else (if players[0].gameName != name then [players[0]] else []) + WithoutName(players[1..], name)
  }

  /** `disconnect_player`: drop every record whose name is column 3 */
  function DisconnectPlayer(st: Status, line: string): Result<Status> {
    match Column(line, 3)
    case IndexError => IndexError
    case Ok(name) => Ok(st.(playersConnected := WithoutName(st.playersConnected, name)))
  }

  /** What one pass of the loop in `add_display_name` makes of the record `p` */
  function Tagged(p: Player, name: string, site: string): Player {
    p.(siteName := if p.gameName == name then site else NameMismatch)
  }

  /** The list after the loop in `add_display_name`: every record passed through `Tagged` */
  function TagAll(players: seq<Player>, name: string, site: string): (r: seq<Player>)
  {
    seq(|players|, i requires 0 <= i < |players| => Tagged(players[i], name, site))
  }

  /**
   `add_display_name`: column 3 names the player; if the line carries a
   display name, each record gets it or `NameMismatch`; otherwise nothing changes.
   */
  function AddDisplayName(st: Status, line: string): Result<Status> {
    match Column(line, 3)
    case IndexError => IndexError
    case Ok(name) =>
      match DisplayName(line)
      case None => Ok(st)
      case Some(site) => Ok(st.(playersConnected := TagAll(st.playersConnected, name, Strip(site))))
  }

  // ---- the dispatch chain ----

  /** Which branch of the per-line chain handles a line */
  datatype Handler =
    | LoadWorldLine
    | WorldLoadedLine
    | ConnectLine
    | DisconnectLine
    | DisplayNameLine
    | ChatLine
    | OtherLine

  /** The per-line chain: the first test that holds decides, and `World loaded` counts only while the flag is 1 */
  function Classify(line: string, flag: int): Handler {
    if StartsWith(line, LoadingWorldPrefix) then LoadWorldLine
    else if StartsWith(line, WorldLoadedPrefix) && flag == 1 then WorldLoadedLine
    else if EndsWith(line, ClientConnectedSuffix) then ConnectLine
    else if EndsWith(line, ClientDisconnectedSuffix) then DisconnectLine
    else if HasDisplayNameTag(line) then DisplayNameLine
    else if Contains(line, ChatTag) then ChatLine
    else OtherLine
  }

  /** One pass of the loop body: classify the line and run its handler; chat and other lines change nothing */
  function Step(st: Status, line: string): Result<Status> {
    match Classify(line, st.loadingWorldFlag)
    case LoadWorldLine => Ok(LoadWorld(st, line))
    case WorldLoadedLine => Ok(SetCurrentWorld(st))
    case ConnectLine => ConnectPlayer(st, line)
    case DisconnectLine => DisconnectPlayer(st, line)
    case DisplayNameLine => AddDisplayName(st, line)
    case ChatLine => Ok(st)
    case OtherLine => Ok(st)
  }

  /** How a run over the log ends: every line read, or an `IndexError` on line `failedLine` */
  datatype RunResult = Finished(status: Status) | Crashed(status: Status, failedLine: nat)

  /** The `for line in server_log` loop: the lines in order through `Step`, stopping at the first exception */
  function Run(st: Status, lines: seq<string>): (r: RunResult)
    ensures r.Crashed? ==> r.failedLine < |lines|
    decreases |lines|
  {
    if lines == [] then Finished(st)
    else
      match Run(st, lines[..|lines| - 1])
      case Crashed(s, k) => Crashed(s, k)
      case Finished(s) =>
        match Step(s, lines[|lines| - 1])
        case Ok(next) => Finished(next)
        case IndexError => Crashed(s, |lines| - 1)
  }
}
