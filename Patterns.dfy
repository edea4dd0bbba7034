/**
 The three fixed regular expressions of the log reader, hand-coded as
 leftmost searches (what `re.search` does):

 - `\[INFO\].*-- Display Name:` decides whether a line is a display-name announcement;
 - `\\(\w+)\n` captures the world name at the end of a "Loading world" line;
 - `-- Display Name:\s*(\S+)` captures the announced display name.

 Each pattern has a ghost predicate saying where it matches (the regular
 expression's meaning, with `.` matching anything but a newline and greedy
 repetitions) and an executable search whose contract ties it to that
 predicate: it finds a match exactly when one exists, and the one it finds is
 the leftmost.
 */
module Patterns {
  import opened PyStrings

  datatype Option<T> = None | Some(value: T)

  /** A successful search: the match starts at `start`; group 1 spans `lo..hi` */
  datatype Found = Found(start: nat, lo: nat, hi: nat)

  /** The character classes the patterns use */
  datatype CharClass = Word | Space | NonSpace

  predicate InClass(c: char, cls: CharClass) {
    match cls
    case Word => IsWord(c)
    case Space => IsSpace(c)
    case NonSpace => !IsSpace(c)
  }

  /** Every character of `s[a..b]` is in `cls` */
  predicate AllIn(s: string, a: int, b: int, cls: CharClass)
    requires 0 <= a <= b <= |s|
  {
    forall k :: a <= k < b ==> InClass(s[k], cls)
  }

  /** No character of `s[a..b]` is a newline: what `.*` can span */
  predicate NoNewline(s: string, a: int, b: int)
    requires 0 <= a <= b <= |s|
  {
    forall k :: a <= k < b ==> s[k] != '\n'
  }

  /** End of the longest run of `cls` characters starting at `k`: what a greedy `cls+` or `cls*` consumes */
  function RunEnd(s: string, k: nat, cls: CharClass): (e: nat)
    requires k <= |s|
    ensures k <= e <= |s| && AllIn(s, k, e, cls)
    ensures e == |s| || !InClass(s[e], cls)
    decreases |s| - k
  {
    if k < |s| && InClass(s[k], cls) then RunEnd(s, k + 1, cls) else k
  }

  /** A run of `cls` characters from `k` that stops at a character outside `cls` ends where `RunEnd` says */
  lemma RunEndUnique(s: string, k: nat, e: nat, cls: CharClass)
    requires k <= e <= |s| && AllIn(s, k, e, cls)
    requires e == |s| || !InClass(s[e], cls)
    ensures RunEnd(s, k, cls) == e
  {
  }

  // ---- `\[INFO\].*-- Display Name:` (the line classifier's test) ----

  const InfoTag := "[INFO]"
  const DisplayNameLabel := "-- Display Name:"

  /** `[INFO]` sits at `i` and `.*` can run from its end up to `p` */
  ghost predicate InfoBefore(s: string, i: int, p: int) {
    OccursAt(s, InfoTag, i) && i + |InfoTag| <= p <= |s| && NoNewline(s, i + |InfoTag|, p)
  }

  /** Some `[INFO]` can be extended by `.*` up to `p` */
  ghost predicate InfoReaches(s: string, p: int) {
    exists i :: InfoBefore(s, i, p)
  }

  /** The pattern matches with `[INFO]` at `i` and the label at `j` */
  ghost predicate TagMatch(s: string, i: int, j: int) {
    InfoBefore(s, i, j) && OccursAt(s, DisplayNameLabel, j)
  }

  /** How `InfoBefore` at `p` follows from `p - 1`: either the tag ends at `p`, or it ended before and `s[p - 1]` is no newline */
  lemma InfoBeforeStep(s: string, p: nat)
    requires |InfoTag| <= p <= |s|
    ensures InfoReaches(s, p) <==>
            OccursAt(s, InfoTag, p - |InfoTag|) || (s[p - 1] != '\n' && InfoReaches(s, p - 1))
  {
    if i :| InfoBefore(s, i, p) {
      if i + |InfoTag| < p {
        assert InfoBefore(s, i, p - 1);
      }
    }
    if OccursAt(s, InfoTag, p - |InfoTag|) {
      assert InfoBefore(s, p - |InfoTag|, p);
    }
    if s[p - 1] != '\n' && InfoReaches(s, p - 1) {
      var i :| InfoBefore(s, i, p - 1);
      assert InfoBefore(s, i, p);
    }
  }

  /** Some `[INFO]` ends at or before `p` with no newline between its end and `p` */
  function InfoOpen(s: string, p: nat): (r: bool)
    requires p <= |s|
    ensures r <==> InfoReaches(s, p)
    decreases p
  {
    if p < |InfoTag| then false
    else
      InfoBeforeStep(s, p);
      OccursAt(s, InfoTag, p - |InfoTag|) || (s[p - 1] != '\n' && InfoOpen(s, p - 1))
  }

  /** How a match with its label at `j` or later splits: the label is at `j`, or at `j + 1` or later */
  lemma TagFromStep(s: string, j: nat)
    requires j <= |s|
    ensures (exists i, k :: j <= k && TagMatch(s, i, k)) <==>
            (OccursAt(s, DisplayNameLabel, j) && InfoReaches(s, j))
            || (j < |s| && exists i, k :: j + 1 <= k && TagMatch(s, i, k))
  {
    if i, k :| j <= k && TagMatch(s, i, k) {
      if k > j {
        assert j + 1 <= k && TagMatch(s, i, k);
      }
    }
    if OccursAt(s, DisplayNameLabel, j) && InfoReaches(s, j) {
      var i :| InfoBefore(s, i, j);
      assert TagMatch(s, i, j);
    }
  }

  /** The pattern matches with its label at index `j` or later */
  function TagFrom(s: string, j: nat): (r: bool)
    requires j <= |s|
    ensures r <==> exists i, k :: j <= k && TagMatch(s, i, k)
    decreases |s| - j
  {
    TagFromStep(s, j);
    (OccursAt(s, DisplayNameLabel, j) && InfoOpen(s, j)) || (j < |s| && TagFrom(s, j + 1))
  }

  /** `re.search(r'\[INFO\].*-- Display Name:', s)` succeeds */
  function HasDisplayNameTag(s: string): (r: bool)
    ensures r <==> exists i, j :: TagMatch(s, i, j)
  {
    TagFrom(s, 0)
  }

  // ---- `\\(\w+)\n` (the world name of a "Loading world" line) ----

  /** The pattern matches at `i` with group 1 `s[i + 1..e]` */
  ghost predicate WorldNameMatch(s: string, i: int, e: int) {
    0 <= i && i + 1 < e < |s| && s[i] == '\\' && AllIn(s, i + 1, e, Word) && s[e] == '\n'
  }

  /** The match at `i` is the only one starting there */
  lemma WorldNameMatchUnique(s: string, i: int, e1: int, e2: int)
    requires WorldNameMatch(s, i, e1) && WorldNameMatch(s, i, e2)
    ensures e1 == e2
  {
    RunEndUnique(s, i + 1, e1, Word);
    RunEndUnique(s, i + 1, e2, Word);
  }

  /** The pattern anchored at `i`: a backslash, the longest run of word characters (at least one), then a newline */
  function WorldNameAt(s: string, i: nat): (r: Option<nat>)
    requires i <= |s|
    ensures r.Some? ==> WorldNameMatch(s, i, r.value)
    ensures r.None? ==> forall e :: !WorldNameMatch(s, i, e)
  {
    if i < |s| && s[i] == '\\' then
      var e := RunEnd(s, i + 1, Word);
      if i + 1 < e < |s| && s[e] == '\n' then Some(e)
      else
        assert forall e' :: WorldNameMatch(s, i, e') ==> RunEnd(s, i + 1, Word) == e' by {
          forall e' | WorldNameMatch(s, i, e') {
            RunEndUnique(s, i + 1, e', Word);
          }
        }
        None
    else None
  }

  /** The leftmost match starting at `from` or later */
  function SearchWorldName(s: string, from: nat): (r: Option<Found>)
    requires from <= |s|
    ensures r.Some? ==> from <= r.value.start && r.value.lo == r.value.start + 1
                        && WorldNameMatch(s, r.value.start, r.value.hi)
    ensures r.Some? ==> forall i, e :: from <= i < r.value.start ==> !WorldNameMatch(s, i, e)
    ensures r.None? ==> forall i, e :: from <= i ==> !WorldNameMatch(s, i, e)
    decreases |s| - from
  {
    match WorldNameAt(s, from)
    case Some(e) => Some(Found(from, from + 1, e))
    case None => if from == |s| then None else SearchWorldName(s, from + 1)
  }

  /** `re.search(r"\\(\w+)\n", s).group(1)`, or `None` when there is no match */
  function WorldName(s: string): (r: Option<string>)
    ensures r.None? <==> forall i, e :: !WorldNameMatch(s, i, e)
    ensures r.Some? ==> (exists i, e :: WorldNameMatch(s, i, e) && r.value == s[i + 1..e]
                                         && forall i', e' :: WorldNameMatch(s, i', e') ==> i <= i')
  {
    match SearchWorldName(s, 0)
    case Some(m) => Some(s[m.lo..m.hi])
    case None => None
  }

  // ---- `-- Display Name:\s*(\S+)` (the announced display name) ----

  /** The pattern matches at `i` with group 1 `s[g..e]`: `\s*` and `\S+` both take as much as they can */
  ghost predicate DisplayNameMatch(s: string, i: int, g: int, e: int) {
    OccursAt(s, DisplayNameLabel, i) && i + |DisplayNameLabel| <= g < e <= |s|
    && AllIn(s, i + |DisplayNameLabel|, g, Space) && AllIn(s, g, e, NonSpace)
    && (e == |s| || IsSpace(s[e]))
  }

  /** The match at `i` is the only one starting there */
  lemma DisplayNameMatchUnique(s: string, i: int, g1: int, e1: int, g2: int, e2: int)
    requires DisplayNameMatch(s, i, g1, e1) && DisplayNameMatch(s, i, g2, e2)
    ensures g1 == g2 && e1 == e2
  {
    RunEndUnique(s, i + |DisplayNameLabel|, g1, Space);
    RunEndUnique(s, i + |DisplayNameLabel|, g2, Space);
    RunEndUnique(s, g1, e1, NonSpace);
    RunEndUnique(s, g2, e2, NonSpace);
  }

  /** The pattern anchored at `i`, as the pair of group bounds */
  function DisplayNameAt(s: string, i: nat): (r: Option<(nat, nat)>)
    requires i <= |s|
    ensures r.Some? ==> DisplayNameMatch(s, i, r.value.0, r.value.1)
    ensures r.None? ==> forall g, e :: !DisplayNameMatch(s, i, g, e)
  {
    if OccursAt(s, DisplayNameLabel, i) then
      var g := RunEnd(s, i + |DisplayNameLabel|, Space);
      if g < |s| then Some((g, RunEnd(s, g, NonSpace)))
      else
        assert forall g', e' :: DisplayNameMatch(s, i, g', e') ==> false by {
          forall g', e' | DisplayNameMatch(s, i, g', e') ensures false {
            RunEndUnique(s, i + |DisplayNameLabel|, g', Space);
          }
        }
        None
    else None
  }

  /** The leftmost match starting at `from` or later */
  function SearchDisplayName(s: string, from: nat): (r: Option<Found>)
    requires from <= |s|
    ensures r.Some? ==> from <= r.value.start && DisplayNameMatch(s, r.value.start, r.value.lo, r.value.hi)
    ensures r.Some? ==> forall i, g, e :: from <= i < r.value.start ==> !DisplayNameMatch(s, i, g, e)
    ensures r.None? ==> forall i, g, e :: from <= i ==> !DisplayNameMatch(s, i, g, e)
    decreases |s| - from
  {
    match DisplayNameAt(s, from)
    case Some((g, e)) => Some(Found(from, g, e))
    case None => if from == |s| then None else SearchDisplayName(s, from + 1)
  }

  /**
   `re.search(r'-- Display Name:\s*(\S+)', s).group(1)`, or `None` when there
   is no match; a captured name is never empty and holds no whitespace.
   */
  function DisplayName(s: string): (r: Option<string>)
    ensures r.None? <==> forall i, g, e :: !DisplayNameMatch(s, i, g, e)
    ensures r.Some? ==> (exists i, g, e :: DisplayNameMatch(s, i, g, e) && r.value == s[g..e]
                                            && forall i', g', e' :: DisplayNameMatch(s, i', g', e') ==> i <= i')
    ensures r.Some? ==> |r.value| > 0 && forall k :: 0 <= k < |r.value| ==> !IsSpace(r.value[k])
  {
    match SearchDisplayName(s, 0)
    case Some(m) => Some(s[m.lo..m.hi])
    case None => None
  }
}
