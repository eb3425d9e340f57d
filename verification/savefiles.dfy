/**
 * The save-file text of `RobustSaveSystem` in src/main/kotlin/12slesor.kt:
 * the four-line layout `savePlayerData` writes, and the `key: value` parser
 * inside `loadPlayerData`, both as pure functions on strings.
 */
module SaveFiles {
  import opened Wrappers
  import opened Text

  const PlayerKey: string := "Игрок"
  const HealthKey: string := "Здоровье"
  const LevelKey: string := "Уровень"
  const InventoryKey: string := "Инвентарь"

  const Colon: set<char> := {':'}

  /** Position `k` holds the first `':'` of `line`. */
  predicate FirstColonAt(line: string, k: int) {
    && 0 <= k < |line|
    && line[k] == ':'
    && forall j :: 0 <= j < k ==> line[j] != ':'
  }

  /**
   * One line of `loadPlayerData`: a line without `':'` gives nothing; any
   * other line is cut at its first `':'` only (`split(":", limit = 2)`), and
   * both halves are trimmed.
   */
  function ParseLine(line: string): (r: Option<(string, string)>)
    ensures r.None? <==> ':' !in line
    ensures r.Some? ==> exists k :: FirstColonAt(line, k) && r.value == (Trim(line[..k]), Trim(line[k + 1..]))
  {
    var k := FirstOf(line, Colon);
    if k == |line| then
      None
    else
      assert FirstColonAt(line, k) by {
        forall j | 0 <= j < k ensures line[j] != ':' {
          assert line[j] !in Colon;
        }
      }
      Some((Trim(line[..k]), Trim(line[k + 1..])))
  }

  /** What one line contributes to the map: an entry, or nothing. */
  type Entry = Option<(string, string)>

  /** The entry carries `key`. */
  predicate HasKey(e: Entry, key: string) {
    e.Some? && e.value.0 == key
  }

  /** The map built from entries in reading order: each entry goes in over what was there. */
  function Collect(es: seq<Entry>): map<string, string> {
    if |es| == 0 then map[]
    else
      var m := Collect(es[..|es| - 1]);
      match es[|es| - 1]
      case Some((key, value)) => m[key := value]
      case None => m
  }

  /** The entries of the lines, one per line, in order. */
  function Entries(ls: seq<string>): (es: seq<Entry>)
    ensures |es| == |ls|
    ensures forall i :: 0 <= i < |ls| ==> es[i] == ParseLine(ls[i])
  {
    seq(|ls|, i requires 0 <= i < |ls| => ParseLine(ls[i]))
  }

  /** The map `loadPlayerData` builds from a list of lines. */
  function ParseLines(ls: seq<string>): map<string, string> {
    Collect(Entries(ls))
  }

  /** The parsing half of `loadPlayerData`, applied to the text the file held. */
  function Parse(content: string): map<string, string> {
    ParseLines(Lines(content))
  }

  /** The keys of the collected map are exactly the keys of the entries. */
  lemma {:induction false} CollectedKeys(es: seq<Entry>, key: string)
    ensures key in Collect(es) <==> exists i :: 0 <= i < |es| && HasKey(es[i], key)
  {
    if |es| > 0 {
      var init := es[..|es| - 1];
      CollectedKeys(init, key);
      if key in Collect(es) && !HasKey(es[|es| - 1], key) {
        var i :| 0 <= i < |init| && HasKey(init[i], key);
        assert es[i] == init[i];
      }
      if key !in Collect(es) {
        forall i | 0 <= i < |es| ensures !HasKey(es[i], key) {
          if i < |init| {
            assert es[i] == init[i];
          }
        }
      }
    }
  }

  /** The value kept under a key is the one of the last entry with that key. */
  lemma {:induction false} LastEntryWins(es: seq<Entry>, i: nat)
    requires i < |es| && es[i].Some?
    requires forall j :: i < j < |es| ==> !HasKey(es[j], es[i].value.0)
    ensures es[i].value.0 in Collect(es)
    ensures Collect(es)[es[i].value.0] == es[i].value.1
  {
    if i < |es| - 1 {
      var init := es[..|es| - 1];
      assert init[i] == es[i];
      assert !HasKey(es[|es| - 1], es[i].value.0);
      forall j | i < j < |init| ensures !HasKey(init[j], init[i].value.0) {
        assert init[j] == es[j];
      }
      LastEntryWins(init, i);
    }
  }

  /** The keys of the parsed map are exactly the keys some line produced. */
  lemma ParsedKeys(ls: seq<string>, key: string)
    ensures key in ParseLines(ls) <==> exists i :: 0 <= i < |ls| && HasKey(ParseLine(ls[i]), key)
  {
    var es := Entries(ls);
    CollectedKeys(es, key);
    if exists i :: 0 <= i < |ls| && HasKey(ParseLine(ls[i]), key) {
      var i :| 0 <= i < |ls| && HasKey(ParseLine(ls[i]), key);
      assert HasKey(es[i], key);
    }
  }

  /** When several lines share a key, the value of the last of them is kept. */
  lemma LaterLineWins(ls: seq<string>, i: nat)
    requires i < |ls| && ParseLine(ls[i]).Some?
    requires forall j :: i < j < |ls| ==> !HasKey(ParseLine(ls[j]), ParseLine(ls[i]).value.0)
    ensures ParseLine(ls[i]).value.0 in ParseLines(ls)
    ensures ParseLines(ls)[ParseLine(ls[i]).value.0] == ParseLine(ls[i]).value.1
  {
    LastEntryWins(Entries(ls), i);
  }

  /** A line without `':'` adds no entry. */
  lemma LineWithoutColonIgnored(ls: seq<string>, line: string)
    requires ':' !in line
    ensures ParseLines(ls + [line]) == ParseLines(ls)
  {
    var es := Entries(ls + [line]);
    assert es[..|ls|] == Entries(ls);
    assert es[|ls|] == None;
  }

  /**
   * The text `savePlayerData` writes once `trimIndent` has removed the
   * template's indentation: four `key: value` lines, the inventory joined by
   * `", "`.
   */
  function SaveContent(playerName: string, health: int, level: int, inventory: seq<string>): string {
    Join(SaveLines(playerName, health, level, inventory), "\n")
  }

  function SaveLines(playerName: string, health: int, level: int, inventory: seq<string>): seq<string> {
    [ PlayerKey + ": " + playerName,
      HealthKey + ": " + IntToString(health),
      LevelKey + ": " + IntToString(level),
      InventoryKey + ": " + Join(inventory, ", ") ]
  }

  /** A `key: value` line with a colon-free key parses to that key and the trimmed value. */
  lemma ParseKeyedLine(key: string, value: string)
    requires WellFormedKey(key)
    ensures ParseLine(key + ": " + value) == Some((key, Trim(value)))
  {
    var line := key + ": " + value;
    assert line == key + (": " + value);
    FirstOfAfter(key, ": " + value, Colon);
    assert line[..|key|] == key;
    assert line[|key| + 1..] == " " + value;
    TrimKeepsInner(key);
    TrimSkipsPrefix(" ", value);
  }

  lemma NumberTrimsToItself(n: int)
    ensures Trim(IntToString(n)) == IntToString(n)
    ensures NoLineBreak(IntToString(n))
  {
    var s := IntToString(n);
    assert !IsWhitespace(s[0]) && !IsWhitespace(s[|s| - 1]);
    TrimKeepsInner(s);
  }

  /** A save-file key: non-empty, no whitespace at its ends, no `':'` and no line break. */
  predicate WellFormedKey(key: string) {
    && |key| > 0
    && !IsWhitespace(key[0])
    && !IsWhitespace(key[|key| - 1])
    && ':' !in key
    && NoLineBreak(key)
  }

  lemma KeysAreWellFormed()
    ensures WellFormedKey(PlayerKey) && WellFormedKey(HealthKey)
    ensures WellFormedKey(LevelKey) && WellFormedKey(InventoryKey)
  {
  }

  lemma NoLineBreakConcat(a: string, b: string)
    requires NoLineBreak(a) && NoLineBreak(b)
    ensures NoLineBreak(a + b)
  {
    forall i | 0 <= i < |a + b| ensures (a + b)[i] !in LineBreaks {
      if i >= |a| { assert (a + b)[i] == b[i - |a|]; }
    }
  }

  lemma SaveLinesHaveNoBreak(playerName: string, health: int, level: int, inventory: seq<string>)
    requires NoLineBreak(playerName)
    requires forall i :: 0 <= i < |inventory| ==> NoLineBreak(inventory[i])
    ensures var ls := SaveLines(playerName, health, level, inventory);
      |ls| == 4 && forall i :: 0 <= i < |ls| ==> NoLineBreak(ls[i])
  {
    KeysAreWellFormed();
    NumberTrimsToItself(health);
    NumberTrimsToItself(level);
    assert NoLineBreak(": ");
    NoLineBreakConcat(PlayerKey, ": ");
    NoLineBreakConcat(HealthKey, ": ");
    NoLineBreakConcat(LevelKey, ": ");
    NoLineBreakConcat(InventoryKey, ": ");
    NoLineBreakConcat(PlayerKey + ": ", playerName);
    NoLineBreakConcat(HealthKey + ": ", IntToString(health));
    NoLineBreakConcat(LevelKey + ": ", IntToString(level));
    NoLineBreakConcat(InventoryKey + ": ", Join(inventory, ", "));
  }

  /** Four entries with keys collect to the map of those keys, later entries winning. */
  lemma CollectFour(es: seq<Entry>, e0: (string, string), e1: (string, string), e2: (string, string), e3: (string, string))
    requires |es| == 4 && es[0] == Some(e0) && es[1] == Some(e1) && es[2] == Some(e2) && es[3] == Some(e3)
    ensures Collect(es) == map[e0.0 := e0.1][e1.0 := e1.1][e2.0 := e2.1][e3.0 := e3.1]
  {
    assert es[..1][..0] == [];
    assert Collect(es[..1]) == map[e0.0 := e0.1];
    assert es[..2][..1] == es[..1];
    assert Collect(es[..2]) == map[e0.0 := e0.1][e1.0 := e1.1];
    assert es[..3][..2] == es[..2];
    assert Collect(es[..3]) == map[e0.0 := e0.1][e1.0 := e1.1][e2.0 := e2.1];
  }

  /**
   * Loading what was saved gives back every field under its key, trimmed,
   * as long as no field contains a line break.
   */
  lemma SaveThenParse(playerName: string, health: int, level: int, inventory: seq<string>)
    requires NoLineBreak(playerName)
    requires forall i :: 0 <= i < |inventory| ==> NoLineBreak(inventory[i])
    ensures Parse(SaveContent(playerName, health, level, inventory)) == map[
      PlayerKey := Trim(playerName),
      HealthKey := IntToString(health),
      LevelKey := IntToString(level),
      InventoryKey := Trim(Join(inventory, ", "))]
  {
    var ls := SaveLines(playerName, health, level, inventory);
    var items := Join(inventory, ", ");
    assert Lines(SaveContent(playerName, health, level, inventory)) == ls by {
      SaveLinesHaveNoBreak(playerName, health, level, inventory);
      LinesOfJoin(ls);
    }
    var e0, e1, e2, e3 := (PlayerKey, Trim(playerName)), (HealthKey, IntToString(health)),
      (LevelKey, IntToString(level)), (InventoryKey, Trim(items));
    var es := Entries(ls);
    KeysAreWellFormed();
    assert es[0] == Some(e0) by {
      ParseKeyedLine(PlayerKey, playerName);
    }
    assert es[1] == Some(e1) by {
      NumberTrimsToItself(health);
      ParseKeyedLine(HealthKey, IntToString(health));
    }
    assert es[2] == Some(e2) by {
      NumberTrimsToItself(level);
      ParseKeyedLine(LevelKey, IntToString(level));
    }
    assert es[3] == Some(e3) by {
      ParseKeyedLine(InventoryKey, items);
    }
    CollectFour(es, e0, e1, e2, e3);
  }
}
