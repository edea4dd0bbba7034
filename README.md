# FEAR server log reader, modelled in Dafny

`fear_server_utils.py` reads the log of a F.E.A.R. dedicated server line by
line and keeps a `server_status` dictionary up to date: which world is being
loaded, which world is current, and which players are connected with their
columns from the log (game name, connect time, address, ping) and the site
name that a later "Display Name" line gives them. Each line goes through a
chain of tests. The first test that holds picks one handler: `load_world`,
`set_current_world`, `connect_player`, `disconnect_player` or
`add_display_name`. Chat lines and every other line change nothing.

The project has five modules:

- `PyStrings`: the Python `str` operations the script uses, over `seq<char>`.
  These are `startswith`, `endswith`, `in`, slicing `[k:]`, `split` on `']'`
  and `strip()`. `Split` is proved to give one piece per separator plus one,
  pieces free of the separator, pieces that join back to the input, and the
  only such cut.
- `Patterns`: the three regular expressions the script searches with:
  - `\[INFO\].*-- Display Name:` (the chain's test);
  - `\\(\w+)\n` (the world name);
  - `-- Display Name:\s*(\S+)` (the site name).

  Each one is a ghost predicate saying where a match lies. The search is a
  function proved to return the leftmost match, with `None` exactly when there
  is no match at all.
- `ServerModel`: the status as a value (`Status`, `Player`) and every handler
  as a function from the old status and the line to `Ok(new status)`, or to
  `IndexError` when `split(']')[3]` raises. `Classify` is the test chain,
  `Step` runs one loop pass, and `Run` is the loop over the whole log, which
  stops at the first exception.
- `ServerProperties`: lemmas about that model. They cover:
  - the priority of the chain;
  - each handler's effect, stated in terms of where the patterns match;
  - `disconnect_player`'s filter;
  - exactly when a line raises;
  - an invariant of every reachable status;
  - several whole-log scenarios.
- `FearServer`: the script as it runs. The `ServerStatus` class has one
  field per dictionary key, and its methods assign those fields in place:
  `DisconnectPlayer` rebuilds the list in a loop, and `TagSiteNames` rewrites
  each record's site name in a loop. Each method is proved to leave the object
  holding exactly the status the pure model computes. `ReadServerLog` is the
  `for line in server_log` loop, proved equal to `Run`.

The model follows the code in the places where its behaviour is surprising:

- `connect_player` appends a record even when one with the same game name is
  already there. `disconnect_player` then removes all of them.
- A "World loaded" line seen while `loading_world_flag` is not 1 is not a
  world event. It goes on to the later tests of the chain.
- `add_display_name` overwrites the site name of every record whose game
  name differs with `NAME MISMATCH!`.
- A line that reaches a player handler with fewer than three `]` raises
  `IndexError` before anything changes, and the script stops there.
- The failure marker `World loading seemed to fail.` can become the current
  world.

## Model

| member | source | states |
|---|---|---|
| PyStrings.StartsWith | fear_server_utils.py:96-100 | `line.startswith(prefix)` holds exactly when the line is at least as long as the prefix and agrees with it character by character from the start |
| PyStrings.EndsWith | fear_server_utils.py:104-108 | `line.endswith(suffix)` holds exactly when the line is at least as long as the suffix and its last characters are the suffix's, in order |
| PyStrings.Contains | fear_server_utils.py:117 | `'[CHAT]' in line` holds exactly when the tag occurs at some index of the line |
| PyStrings.SliceFrom | fear_server_utils.py:36-39 | `s[k:]` is what follows the first `k` characters, and it is empty once `k` passes the end |
| PyStrings.Split | fear_server_utils.py:32 | `split(']')` gives one piece more than there are `]`, no piece contains `]`, and joining the pieces with `]` gives back the line |
| PyStrings.SplitAfterPiece | fear_server_utils.py:32 | a bracket-free piece followed by `]` comes out as the first piece, followed by the pieces of the rest |
| PyStrings.SplitNoSeparator | fear_server_utils.py:32 | a string without `]` splits into itself alone |
| PyStrings.SplitUnique | fear_server_utils.py:32 | any cut of a line into bracket-free pieces that join back to it is the one `split` returns |
| PyStrings.LStrip | fear_server_utils.py:71 | the leading-whitespace half of `strip()`: only whitespace is removed, and the result does not start with whitespace |
| PyStrings.RStrip | fear_server_utils.py:71 | the trailing-whitespace half of `strip()`: only whitespace is removed, and the result does not end with whitespace |
| PyStrings.Strip | fear_server_utils.py:71 | `strip()` returns a substring of the input with no whitespace at either end, and everything cut off is whitespace |
| PyStrings.StripNoSpace | fear_server_utils.py:71 | `strip()` leaves a string without whitespace unchanged, so the captured `\S+` group comes through as it is |
| Patterns.RunEnd | fear_server_utils.py:16 | a greedy `\w+`, `\s*` or `\S+` run starting at `k` ends at the first character outside the class |
| Patterns.RunEndUnique | fear_server_utils.py:16 | a run that is all in the class and stops at a character outside it (or at the end) is the greedy one |
| Patterns.InfoBeforeStep | fear_server_utils.py:9 | `[INFO].*` reaches position `p` exactly when `[INFO]` ends at `p`, or it reaches `p - 1` and the character there is not a newline |
| Patterns.InfoOpen | fear_server_utils.py:9 | decides whether some `[INFO]` followed by `.*` (no newline) reaches position `p` |
| Patterns.TagFromStep | fear_server_utils.py:9 | a match with its label at `j` or later has the label at `j` or at `j + 1` or later |
| Patterns.TagFrom | fear_server_utils.py:9 | decides whether the pattern matches with its `-- Display Name:` at index `j` or later |
| Patterns.HasDisplayNameTag | fear_server_utils.py:112 | `re.search(DISPLAY_NAME_PATTERN, line)` succeeds exactly when `[INFO]` occurs, with no newline between it and a later `-- Display Name:` |
| Patterns.WorldNameMatchUnique | fear_server_utils.py:16 | at one backslash, `\\(\w+)\n` can match in only one way |
| Patterns.WorldNameAt | fear_server_utils.py:16 | the match of `\\(\w+)\n` anchored at `i`: its end when there is one, `None` exactly when there is none |
| Patterns.SearchWorldName | fear_server_utils.py:16 | scanning from `from` finds the leftmost match that starts at `from` or later, and `None` means there is none |
| Patterns.WorldName | fear_server_utils.py:16-22 | `re.search(r"\\(\w+)\n", line).group(1)`: `None` exactly when nothing matches, otherwise group 1 of the leftmost match |
| Patterns.DisplayNameMatchUnique | fear_server_utils.py:65-66 | at one label position, `-- Display Name:\s*(\S+)` can match in only one way |
| Patterns.DisplayNameAt | fear_server_utils.py:65-66 | the match anchored at `i` and its group bounds, or `None` exactly when it does not match there |
| Patterns.SearchDisplayName | fear_server_utils.py:65-66 | scanning from `from` finds the leftmost match that starts at `from` or later, and `None` means there is none |
| Patterns.DisplayName | fear_server_utils.py:65-68 | `re.search(r'-- Display Name:\s*(\S+)', line).group(1)`: `None` exactly when nothing matches, otherwise group 1 of the leftmost match, a non-empty token without whitespace |
| ServerModel.Column | fear_server_utils.py:36-39 | `line.split(']')[k][2:]` exists exactly when the line has at least `k` closing brackets, and it contains no `]` |
| ServerModel.Initial | fear_server_utils.py:82-87 | no contract of its own: the dictionary literal; `ServerProperties.InitialConsistent` states what it satisfies |
| ServerModel.LoadWorld | fear_server_utils.py:12-22 | no contract of its own: `load_world`; its effect is `ServerProperties.LoadWorldEffect` |
| ServerModel.SetCurrentWorld | fear_server_utils.py:25-28 | no contract of its own: `set_current_world`; its effect is `ServerProperties.WorldLoadedWhileLoading` |
| ServerModel.ConnectPlayer | fear_server_utils.py:31-43 | no contract of its own: `connect_player`; its effect is `ServerProperties.ConnectPlayerEffect` |
| ServerModel.WithoutName | fear_server_utils.py:52-53 | the comprehension never lengthens the list, and every record it keeps comes from the list and has another name; the converse and the order are `ServerProperties.WithoutNameMembers` and `ServerProperties.WithoutNameAppend` |
| ServerModel.DisconnectPlayer | fear_server_utils.py:46-53 | no contract of its own: `disconnect_player`; its effect is `ServerProperties.DisconnectPlayerEffect` |
| ServerModel.Tagged | fear_server_utils.py:70-74 | no contract of its own: one pass of the loop over the records; see `ServerProperties.AddDisplayNameWithMatch` |
| ServerModel.TagAll | fear_server_utils.py:69-74 | no contract of its own: the whole loop; `FearServer.ServerStatus.TagSiteNames` is proved to compute it in place, and `ServerProperties.AddDisplayNameWithMatch` states its effect |
| ServerModel.AddDisplayName | fear_server_utils.py:60-76 | no contract of its own: `add_display_name`; its effect is `ServerProperties.AddDisplayNameRaises`, `ServerProperties.AddDisplayNameWithoutMatch` and `ServerProperties.AddDisplayNameWithMatch` |
| ServerModel.Classify | fear_server_utils.py:96-117 | no contract of its own: the chain of tests; `ServerProperties.ClassifyIsFirstMatch` states that the first test that holds decides |
| ServerModel.Step | fear_server_utils.py:96-118 | no contract of its own: one pass of the loop body; `ServerProperties.StepRaisesExactly`, `ServerProperties.IgnoredLinesChangeNothing` and `ServerProperties.StepKeepsConsistent` state its effect |
| ServerModel.Run | fear_server_utils.py:91-121 | a run that stops at a raise names a line of the log as the one that raised; `ServerProperties.RunStopsAtCrash` and `ServerProperties.RunKeepsConsistent` state the rest |
| ServerProperties.ClassifyIsFirstMatch | fear_server_utils.py:96-118 | a line goes to a rule exactly when that rule's test holds and every earlier test fails; "World loaded" counts only while the flag is 1 |
| ServerProperties.LoadingWorldLineOnlyLoads | fear_server_utils.py:96-98 | a line starting with "Loading world" is always handed to `load_world` and to nothing else, whatever the flag |
| ServerProperties.WorldPrefixesExclusive | fear_server_utils.py:5-6 | no line starts with both world prefixes |
| ServerProperties.ConnectDisconnectExclusive | fear_server_utils.py:7-8 | no line ends with both the connect and the disconnect suffix |
| ServerProperties.LoadWorldEffect | fear_server_utils.py:12-22 | `load_world` sets the flag to 1, sets the world being loaded to group 1 of the leftmost world-name match or to the failure marker when there is none, and leaves the current world and the players alone |
| ServerProperties.WorldLoadedWhileLoading | fear_server_utils.py:25-28 | while the flag is 1, a "World loaded" line makes the world being loaded current, sets the flag to 0 and the world being loaded to "None", and keeps the players |
| ServerProperties.WorldLoadedWhileIdle | fear_server_utils.py:100-102 | while the flag is not 1, a "World loaded" line is classified exactly as with flag 0 and does not change the world fields |
| ServerProperties.WorldFieldsOnlyFromWorldLines | fear_server_utils.py:96-114 | only the two world rules change the flag, the world being loaded and the current world |
| ServerProperties.CountNamedAppend | fear_server_utils.py:35 | the number of records with a given name adds up over concatenated lists |
| ServerProperties.WithoutNameAppend | fear_server_utils.py:52-53 | the comprehension distributes over concatenation, so the kept records stay in order |
| ServerProperties.WithoutNameMembers | fear_server_utils.py:52-53 | a record is kept exactly when it was there and has another name; the list shrinks by the number of records with that name |
| ServerProperties.WithoutNameAbsent | fear_server_utils.py:52-53 | when no record has the name, the comprehension returns the list unchanged |
| ServerProperties.WithoutNameIdempotent | fear_server_utils.py:52-53 | filtering twice by the same name gives the same list as filtering once |
| ServerProperties.ConnectPlayerEffect | fear_server_utils.py:31-43 | `connect_player` raises exactly on lines with fewer than three `]`; otherwise it appends one record built from columns 3, 0, 1, 2 with empty other fields, keeps the existing records (duplicates included) and changes nothing else |
| ServerProperties.DisconnectPlayerEffect | fear_server_utils.py:46-53 | `disconnect_player` raises exactly on lines with fewer than three `]`; otherwise it keeps exactly the records with another name, in order, changes nothing else, and a repeat of the line changes nothing more |
| ServerProperties.DisconnectUnknownPlayer | fear_server_utils.py:46-57 | disconnecting a name no record has changes nothing, and it does not raise |
| ServerProperties.LeftmostDisplayName | fear_server_utils.py:65-66 | the group of the leftmost display-name match is what the search returns: non-empty and without whitespace |
| ServerProperties.AddDisplayNameRaises | fear_server_utils.py:62-63 | `add_display_name` raises exactly on lines with fewer than three `]` |
| ServerProperties.AddDisplayNameWithoutMatch | fear_server_utils.py:68-76 | with no display-name match, `add_display_name` changes nothing |
| ServerProperties.AddDisplayNameWithMatch | fear_server_utils.py:60-74 | with a match, each record named in column 3 gets the captured token as its site name, every other record gets `NAME MISMATCH!`, and nothing else changes |
| ServerProperties.StepRaisesExactly | fear_server_utils.py:104-114 | a line raises exactly when it reaches one of the three player handlers and has fewer than three `]` |
| ServerProperties.IgnoredLinesChangeNothing | fear_server_utils.py:116-121 | chat lines and lines that no rule takes leave the status unchanged |
| ServerProperties.InitialConsistent | fear_server_utils.py:82-87 | the initial dictionary satisfies the invariant `Consistent` |
| ServerProperties.LoadWorldKeepsConsistent | fear_server_utils.py:12-22 | `load_world` keeps the invariant |
| ServerProperties.ConnectPlayerKeepsConsistent | fear_server_utils.py:31-43 | `connect_player` keeps the invariant |
| ServerProperties.DisconnectPlayerKeepsConsistent | fear_server_utils.py:46-53 | `disconnect_player` keeps the invariant |
| ServerProperties.AddDisplayNameKeepsConsistent | fear_server_utils.py:60-74 | `add_display_name` keeps the invariant |
| ServerProperties.StepKeepsConsistent | fear_server_utils.py:96-118 | each pass of the loop that does not raise keeps the invariant |
| ServerProperties.RunKeepsConsistent | fear_server_utils.py:91-121 | a run over any log, from a consistent status, ends in a consistent status, whether it finishes or stops at a raise |
| ServerProperties.ReachableConsistent | fear_server_utils.py:82-121 | every status the script reaches is consistent: flag 0 or 1, world fields as the flag allows, well-formed records |
| ServerProperties.RunStopsAtCrash | fear_server_utils.py:91-121 | once a line has raised, the lines after it change nothing, because the exception ends the loop |
| ServerProperties.RunTwo | fear_server_utils.py:91-121 | a run over two lines is the two steps in order, stopping at the first raise |
| ServerProperties.WorldNameAtLineEnd | fear_server_utils.py:16-20 | in a line ending in a backslash, a word and a newline, with no earlier newline, the captured world name is that word |
| ServerProperties.LoadThenLoaded | fear_server_utils.py:96-102 | a "Loading world ...\w\n" line followed by "World loaded" makes `w` the current world, resets the loading fields and keeps the players, from any status |
| ServerProperties.SplitTwoColumns | fear_server_utils.py:32 | two bracket-free columns, each closed by `]`, split off as the first two pieces |
| ServerProperties.SplitColumns | fear_server_utils.py:32 | four bracket-free columns, each closed by `]`, split off as the first four pieces |
| ServerProperties.ColumnOfPieces | fear_server_utils.py:32-39 | for any line cut into bracket-free pieces, column `k` is piece `k` without its first two characters when there are more than `k` pieces (so with exactly three `]` column 3 is the unterminated rest of the line), and `IndexError` otherwise |
| ServerProperties.ColumnsOf | fear_server_utils.py:32-39 | in such a line, columns 0 to 3 are those four pieces without their first two characters |
| ServerProperties.ConnectThenDisconnect | fear_server_utils.py:104-110 | a connect followed by a disconnect of the same name leaves the earlier list without any record of that name |
| ServerProperties.DuplicateConnect | fear_server_utils.py:31-43 | the same connect line twice leaves two more records with that name, since nothing checks for duplicates |
| FearServer.ServerStatus.constructor | fear_server_utils.py:82-87 | the object starts with the initial status |
| FearServer.ServerStatus.LoadWorld | fear_server_utils.py:12-22 | the fields end up as `ServerModel.LoadWorld` of the old ones |
| FearServer.ServerStatus.SetCurrentWorld | fear_server_utils.py:25-28 | the fields end up as `ServerModel.SetCurrentWorld` of the old ones |
| FearServer.ServerStatus.ConnectPlayer | fear_server_utils.py:31-43 | it raises exactly when the model does, leaves the fields unchanged in that case, and otherwise holds the model's new status |
| FearServer.ServerStatus.DisconnectPlayer | fear_server_utils.py:46-53 | the loop that rebuilds the list raises exactly when the model does and otherwise leaves the model's new status |
| FearServer.ServerStatus.AddDisplayName | fear_server_utils.py:60-76 | it raises exactly when the model does and otherwise leaves the model's new status |
| FearServer.ServerStatus.TagSiteNames | fear_server_utils.py:69-74 | the in-place loop gives every record the site name or the mismatch marker, and touches nothing else |
| FearServer.ServerStatus.Step | fear_server_utils.py:96-118 | one pass of the chain raises exactly when the model's `Step` does, and otherwise leaves its new status |
| FearServer.ReadServerLog | fear_server_utils.py:82-121 | the loop over the log ends where `Run` ends: the status after the last line, or the status before the first line that raised, together with that line's index |

## Left out

- Opening and closing the log file (lines 79 and 125): the log is a sequence of lines passed in. They are the lines as text-mode `open()` yields them: `\r\n` and a lone `\r` already turned into `\n` (the suffix tests at lines 104 and 108 rely on that), undecodable bytes already replaced (`errors='replace'`), and each line keeping its final `\n`.
- The `print` calls (lines 57, 94, 118 and 121) are output only. Because of them the `[CHAT]` test changes nothing, and `ChatLine` is kept only to mirror the chain.
- The `except ValueError` in `disconnect_player` (lines 54-57): a list comprehension over dictionaries cannot raise `ValueError`, so that branch can never run.
- The `else: name = None` in `add_display_name` (lines 75-76) assigns a local that is never used, so it has no effect.
- `Patterns.WorldName`, `Patterns.DisplayName`, `PyStrings.Strip`: `\w`, `\s`, `\S` and `strip()` are modelled on ASCII only. `\w` is `[A-Za-z0-9_]`; whitespace is tab through carriage return, 0x1C-0x1F and space. Python's Unicode letters, digits and spaces beyond ASCII are not modelled.
- Records are values in the model, so two references to the same record dictionary cannot be expressed. The script never creates such sharing.
- `IndexError` ends the model's run, as an uncaught exception ends the script. The traceback itself is not modelled.
- The server features that these functions do not implement are not part of this model: GUIDs, the sec2 CD check, statistics and kicking.
