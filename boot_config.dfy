/** The decision inside `check_hpet_status` (src/core/mod.rs): a scan of the
    boot configuration for the `useplatformclock` and `disabledynamictick`
    entries, then the table that turns the two values into an HPET status. */
module BootConfig {
  import opened Wrappers
  import Text

  datatype HpetStatus = Enabled | Disabled

  const UsePlatformClock := "useplatformclock"
  const DisableDynamicTick := "disabledynamictick"

  // ---------------------------------------------------------------------------
  // One line

  /** The first two whitespace-separated tokens of a line, both lowercased:
      the key as matched and the value as kept. */
  function Entry(line: string): Option<(string, string)> {
    var ts := Text.Tokens(line);
    if |ts| >= 2 then Some((Text.Lower(ts[0]), Text.Lower(ts[1]))) else None
  }

  /** The value the line gives to `key`, if its first token is that key. */
  function ValueFor(line: string, key: string): Option<string> {
    match Entry(line)
    case Some((k, v)) => if k == key then Some(v) else None
    case None => None
  }

  /** A line made of a key, a value and possibly more tokens is read as that
      entry, lowercased. */
  lemma {:induction false} EntryOfSpaced(key: string, value: string, more: seq<string>)
    requires Text.Words([key, value] + more)
    ensures Entry(Text.Spaced([key, value] + more)) == Some((Text.Lower(key), Text.Lower(value)))
  {
    Text.TokensOfSpaced([key, value] + more);
  }

  /** A line with fewer than two tokens sets nothing. */
  lemma {:induction false} ShortLineIgnored(line: string, key: string)
    requires |Text.Tokens(line)| < 2
    ensures ValueFor(line, key).None?
  {
  }

  /** The key is matched ignoring case: a first token spelling the key in any
      mix of cases (with KELVIN SIGN allowed for `k`) selects it. */
  lemma {:induction false} KeyMatchIgnoresCase(line: string, key: string)
    requires Text.IsLowerAscii(key) && |Text.Tokens(line)| >= 2
    ensures var t := Text.Tokens(line)[0];
      ValueFor(line, key).Some? <==>
        |t| == |key| && forall i :: 0 <= i < |t| ==>
          t[i] == key[i] || t[i] as int == key[i] as int - 32 || (key[i] == 'k' && t[i] == '\U{212A}')
  {
    var ts := Text.Tokens(line);
    assert Entry(line) == Some((Text.Lower(ts[0]), Text.Lower(ts[1])));
    assert ValueFor(line, key).Some? <==> Text.Lower(ts[0]) == key;
    Text.LowerMatches(ts[0], key);
  }

  // ---------------------------------------------------------------------------
  // The scan

  /** What each line sets `key` to. */
  function KeyValues(lines: seq<string>, key: string): (vs: seq<Option<string>>)
    ensures |vs| == |lines|
    ensures forall i :: 0 <= i < |lines| ==> vs[i] == ValueFor(lines[i], key)
  {
    seq(|lines|, i requires 0 <= i < |lines| => ValueFor(lines[i], key))
  }

  /** The last value present in `vs`. */
  function LastSome(vs: seq<Option<string>>): Option<string>
    decreases |vs|
  {
    if |vs| == 0 then None
    else if vs[|vs| - 1].Some? then vs[|vs| - 1]
    else LastSome(vs[..|vs| - 1])
  }

  /** The reference reading: the value of the last line that sets `key`. */
  function LastValue(lines: seq<string>, key: string): Option<string> {
    LastSome(KeyValues(lines, key))
  }

  lemma {:induction false} LastValueStep(lines: seq<string>, i: nat, key: string)
    requires i < |lines|
    ensures LastValue(lines[..i + 1], key)
              == if ValueFor(lines[i], key).Some? then ValueFor(lines[i], key) else LastValue(lines[..i], key)
  {
    var before, after := KeyValues(lines[..i], key), KeyValues(lines[..i + 1], key);
    assert after[..i] == before;
  }

  /** `LastSome` is `None` exactly when no value is present. */
  lemma {:induction false} LastSomeNone(vs: seq<Option<string>>)
    ensures LastSome(vs).None? <==> forall i :: 0 <= i < |vs| ==> vs[i].None?
    decreases |vs|
  {
    if |vs| > 0 {
      var n := |vs| - 1;
      var front := vs[..n];
      LastSomeNone(front);
      forall i | 0 <= i < n ensures vs[i] == front[i] {
      }
    }
  }

  /** A value `LastSome` finds is present, and no value follows it. */
  lemma {:induction false} LastSomeIsLast(vs: seq<Option<string>>)
    requires LastSome(vs).Some?
    ensures exists i :: 0 <= i < |vs| && vs[i] == LastSome(vs) && (forall j :: i < j < |vs| ==> vs[j].None?)
    decreases |vs|
  {
    var n := |vs| - 1;
    if vs[n].None? {
      var front := vs[..n];
      LastSomeIsLast(front);
      var i :| 0 <= i < |front| && front[i] == LastSome(front) && (forall j :: i < j < |front| ==> front[j].None?);
      assert vs[i] == front[i];
      forall j | i < j < |vs| ensures vs[j].None? {
        if j < n { assert vs[j] == front[j]; }
      }
    }
  }

  /** `LastValue` is the value of a line that sets the key and that no later
      line overrides; it is `None` exactly when no line sets the key. */
  lemma {:induction false} LastValueIsLast(lines: seq<string>, key: string)
    ensures LastValue(lines, key).None? <==> forall i :: 0 <= i < |lines| ==> ValueFor(lines[i], key).None?
    ensures LastValue(lines, key).Some? ==>
              exists i :: 0 <= i < |lines| && ValueFor(lines[i], key) == LastValue(lines, key)
                && (forall j :: i < j < |lines| ==> ValueFor(lines[j], key).None?)
  {
    LastSomeNone(KeyValues(lines, key));
    if LastValue(lines, key).Some? {
      LastSomeIsLast(KeyValues(lines, key));
    }
  }

  /** The loop of `check_hpet_status`: every line is split into tokens, and a
      line whose lowercased first token is one of the two keys overwrites that
      key's value with its lowercased second token. */
  method ScanBootConfig(lines: seq<string>) returns (usePlatformClock: Option<string>, disableDynamicTick: Option<string>)
    ensures usePlatformClock == LastValue(lines, UsePlatformClock)
    ensures disableDynamicTick == LastValue(lines, DisableDynamicTick)
  {
    usePlatformClock, disableDynamicTick := None, None;
    var i := 0;
    while i < |lines|
      invariant 0 <= i <= |lines|
      invariant usePlatformClock == LastValue(lines[..i], UsePlatformClock)
      invariant disableDynamicTick == LastValue(lines[..i], DisableDynamicTick)
    {
      LastValueStep(lines, i, UsePlatformClock);
      LastValueStep(lines, i, DisableDynamicTick);
      var parts := Text.Tokens(lines[i]);
      if |parts| >= 2 {
        var key := Text.Lower(parts[0]);
        if key == UsePlatformClock {
          usePlatformClock := Some(Text.Lower(parts[1]));
        } else if key == DisableDynamicTick {
          disableDynamicTick := Some(Text.Lower(parts[1]));
        }
      }
      i := i + 1;
    }
    assert lines[..i] == lines;
  }

  // ---------------------------------------------------------------------------
  // The decision table

  /** The `match` on the two values: disabled for (no, yes), (absent, yes)
      and (absent, absent); enabled otherwise. */
  function Decide(usePlatformClock: Option<string>, disableDynamicTick: Option<string>): (status: HpetStatus)
    ensures status == Disabled ==>
              (usePlatformClock.None? || usePlatformClock == Some("no"))
              && (disableDynamicTick.None? || disableDynamicTick == Some("yes"))
  {
    if usePlatformClock == Some("no") && disableDynamicTick == Some("yes") then Disabled
    else if usePlatformClock.None? && disableDynamicTick == Some("yes") then Disabled
    else if usePlatformClock.None? && disableDynamicTick.None? then Disabled
    else Enabled
  }

  /** HPET counts as disabled exactly when the platform clock is not forced on
      (absent or "no") with dynamic ticks disabled, or when neither entry is
      present; any explicit `useplatformclock` other than "no", and any
      `disabledynamictick` other than "yes", leave it enabled. */
  lemma {:induction false} DecideDisabledIff(u: Option<string>, d: Option<string>)
    ensures Decide(u, d) == Disabled <==>
              (d == Some("yes") && u in {None, Some("no")}) || (u.None? && d.None?)
    ensures u.Some? && u != Some("no") ==> Decide(u, d) == Enabled
    ensures d.Some? && d != Some("yes") ==> Decide(u, d) == Enabled
  {
  }

  /** The status `check_hpet_status` computes from the boot configuration's
      text (the part before the cache, the prompt and the printing). */
  function HpetStatusOf(lines: seq<string>): HpetStatus {
    Decide(LastValue(lines, UsePlatformClock), LastValue(lines, DisableDynamicTick))
  }

  method CheckHpetStatus(text: string) returns (status: HpetStatus)
    ensures status == HpetStatusOf(Text.Lines(text))
  {
    var usePlatformClock, disableDynamicTick := ScanBootConfig(Text.Lines(text));
    status := Decide(usePlatformClock, disableDynamicTick);
  }

  /** A boot configuration with neither entry counts as disabled. */
  lemma {:induction false} NoEntriesIsDisabled(lines: seq<string>)
    requires forall i :: 0 <= i < |lines| ==>
               ValueFor(lines[i], UsePlatformClock).None? && ValueFor(lines[i], DisableDynamicTick).None?
    ensures HpetStatusOf(lines) == Disabled
  {
    LastValueIsLast(lines, UsePlatformClock);
    LastValueIsLast(lines, DisableDynamicTick);
  }

  /** A later entry overrides an earlier one: appending a line that sets
      `useplatformclock` to "yes" makes the status enabled, whatever came before. */
  lemma {:induction false} LaterEntryWins(lines: seq<string>, line: string)
    requires ValueFor(line, UsePlatformClock) == Some("yes")
    ensures HpetStatusOf(lines + [line]) == Enabled
  {
    var all := lines + [line];
    LastValueStep(all, |lines|, UsePlatformClock);
    assert all[..|lines| + 1] == all && all[|lines|] == line;
  }
}
