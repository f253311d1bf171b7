/** Writing the first-party MCP server tables (`src/cli/plugin-marketplace.ts`), and what the doctor then reads. */
module PluginMcpWriter {
  import opened TomlText
  import opened TomlEdit
  import opened PluginRegistration
  import opened PluginMcp
  import opened Wrappers

  // ------------------------------------------------------------------ setting a key in a table

  function Assignment(value: bool): string { if value then "enabled = true" else "enabled = false" }

  /** Whether the rest of a table assigns the key. */
  predicate HasKey(lines: seq<string>, key: string) {
    lines != [] && !IsTable(lines[0]) && (Assigns(lines[0], key) || HasKey(lines[1..], key))
  }

  /** The rest of a table with its first assignment of the key replaced and the others dropped. */
  function Rewritten(lines: seq<string>, key: string, assignment: string, done: bool): seq<string> {
    if lines == [] || IsTable(lines[0]) then lines
    else if Assigns(lines[0], key) then
      (if done then [] else [assignment]) + Rewritten(lines[1..], key, assignment, true)
    else [lines[0]] + Rewritten(lines[1..], key, assignment, done)
  }

  function WithKey(lines: seq<string>, key: string, assignment: string): seq<string> {
    if HasKey(lines, key) then Rewritten(lines, key, assignment, false) else [assignment] + lines
  }

  /** The first table headed `h` from some line on, or the end. */
  function FirstFrom(lines: seq<string>, h: string, from: nat): (start: nat)
    requires from <= |lines|
    ensures from <= start <= |lines| && (start < |lines| ==> Matches(lines[start], h))
    ensures forall i :: from <= i < start ==> !Matches(lines[i], h)
    decreases |lines| - from
  {
    if from == |lines| || Matches(lines[from], h) then from else FirstFrom(lines, h, from + 1)
  }

  function FirstTable(lines: seq<string>, h: string): nat { FirstFrom(lines, h, 0) }

  function Edited(lines: seq<string>, start: nat, key: string, assignment: string): seq<string>
    requires start < |lines|
  {
    lines[..start + 1] + WithKey(lines[start + 1..], key, assignment)
  }

  /** `replace(/\n*$/, "\n")`. */
  function OneFinalNewline(t: string): string {
    if t != "" && t[|t| - 1] == '\n' then OneFinalNewline(t[..|t| - 1]) else t + "\n"
  }

  /** `upsertTomlTableBooleanKey` for the key `enabled`. */
  function UpsertKey(t: string, h: string, value: bool, create: bool): string {
    var lines := Split(t);
    var start := FirstTable(lines, h);
    if start < |lines| then OneFinalNewline(Join(Edited(lines, start, ENABLED, Assignment(value))))
    else if !create then t
    else Registered(TrimEnd(t), [h, Assignment(value)])
  }

  // The loops of `upsertTomlTableBooleanKey`.

  method FindTable(lines: seq<string>, h: string) returns (start: int)
    ensures start == if FirstTable(lines, h) < |lines| then FirstTable(lines, h) else -1
  {
    start := 0;
    while start < |lines|
      invariant 0 <= start <= |lines| && FirstFrom(lines, h, start) == FirstTable(lines, h)
    {
      if Matches(lines[start], h) {
        return;
      }
      start := start + 1;
    }
    start := -1;
  }

  /** How many lines there are before the next table. */
  function BodyLength(lines: seq<string>): (n: nat)
    ensures n <= |lines|
  {
    if lines == [] || IsTable(lines[0]) then 0 else 1 + BodyLength(lines[1..])
  }

  lemma {:induction false} BodyUpTo(lines: seq<string>, from: nat, end: nat)
    requires from <= end <= |lines| && (end == |lines| || IsTable(lines[end]))
    requires forall i :: from <= i < end ==> !IsTable(lines[i])
    ensures BodyLength(lines[from..]) == end - from
    decreases end - from
  {
    if from < end {
      BodyUpTo(lines, from + 1, end);
      assert lines[from..][1..] == lines[from + 1..];
    }
  }

  /** What is rewritten so far and what is still to come make up the goal. */
  ghost predicate Rewriting(done: seq<string>, pending: seq<string>, found: bool, goal: seq<string>, key: string,
                            assignment: string) {
    done + Rewritten(pending, key, assignment, found) == goal
  }

  lemma RewriteStep(done: seq<string>, pending: seq<string>, found: bool, goal: seq<string>, key: string,
                    assignment: string)
    requires Rewriting(done, pending, found, goal, key, assignment) && BodyLength(pending) > 0
    ensures var l, rest := pending[0], pending[1..];
            && BodyLength(rest) == BodyLength(pending) - 1
            && HasKey(pending, key) == (Assigns(l, key) || HasKey(rest, key))
            && if !Assigns(l, key) then Rewriting(done + [l], rest, found, goal, key, assignment)
               else Rewriting(if found then done else done + [assignment], rest, true, goal, key, assignment)
  {
    var l, rest := pending[0], pending[1..];
    Associate(done, [l], Rewritten(rest, key, assignment, found));
    Associate(done, [assignment], Rewritten(rest, key, assignment, true));
    assert [] + Rewritten(rest, key, assignment, true) == Rewritten(rest, key, assignment, true);
  }

  lemma SpliceAt(done: seq<string>, pending: seq<string>, l: string)
    requires pending != []
    ensures var lines := done + pending;
            && lines[|done|] == pending[0]
            && lines == (done + [pending[0]]) + pending[1..]
            && lines[|done| := l] == (done + [l]) + pending[1..]
            && lines[..|done|] + lines[|done| + 1..] == done + pending[1..]
  {
    assert pending == [pending[0]] + pending[1..];
  }

  lemma RewriteDone(done: seq<string>, pending: seq<string>, found: bool, goal: seq<string>, key: string,
                    assignment: string)
    requires Rewriting(done, pending, found, goal, key, assignment) && BodyLength(pending) == 0
    ensures done + pending == goal && !HasKey(pending, key)
  {
  }

  /** The lines of the table from `start` to `end`, with the first assignment of the key replaced and the others
      spliced out. */
  method RewriteTable(lines: seq<string>, start: nat, end: nat, key: string, assignment: string)
    returns (result: seq<string>, found: bool)
    requires start <= end && start <= |lines| && end == start + BodyLength(lines[start..])
    ensures found <==> HasKey(lines[start..], key)
    ensures result == if found then lines[..start] + Rewritten(lines[start..], key, assignment, false) else lines
  {
    ghost var done, pending := lines[..start], lines[start..];
    ghost var goal, has := done + Rewritten(pending, key, assignment, false), HasKey(pending, key);
    var index, last := start, end;
    result, found := lines, false;
    assert done + pending == lines;
    while index < last
      invariant result == done + pending && |done| == index && last == index + BodyLength(pending)
      invariant Rewriting(done, pending, found, goal, key, assignment)
      invariant has == (found || HasKey(pending, key))
      invariant !found ==> result == lines
      decreases last - index
    {
      RewriteStep(done, pending, found, goal, key, assignment);
      SpliceAt(done, pending, assignment);
      if !Assigns(result[index], key) {
        done := done + [pending[0]];
        index := index + 1;
      } else if found {
        result := result[..index] + result[index + 1..];
        last := last - 1;
      } else {
        found := true;
        result := result[index := assignment];
        done := done + [assignment];
        index := index + 1;
      }
      pending := pending[1..];
    }
    RewriteDone(done, pending, found, goal, key, assignment);
  }

  /** The table that starts at `start` gets the assignment in place of its own, or as its first line. */
  method SetKeyInTable(lines: seq<string>, start: nat, key: string, assignment: string) returns (result: seq<string>)
    requires start < |lines|
    ensures result == Edited(lines, start, key, assignment)
  {
    var end := SkipTable(lines, start + 1);
    BodyUpTo(lines, start + 1, end);
    var found;
    result, found := RewriteTable(lines, start + 1, end, key, assignment);
    if !found {
      result := lines[..start + 1] + [assignment] + lines[start + 1..];
      Associate(lines[..start + 1], [assignment], lines[start + 1..]);
    }
  }

  /** `key = word` assigns the word. */
  lemma ReadWord(key: string, word: string, l: string)
    requires key != "" && !IsSpace(key[0]) && word != "" && !IsSpace(word[0]) && !IsSpace(word[|word| - 1])
    requires l == key + (" = " + word)
    ensures Trim(l) == l && Assigns(l, key) && TrimStart(AfterKey(l, key).value[1..]) == word
  {
    VisibleEnds(l, key, word);
    var v := " = " + word;
    assert l[|key|..] == v;
    SkipSpace("= " + word);
    assert v == [' '] + ("= " + word);
    assert AfterKey(l, key) == Some("= " + word);
    SkipSpace(word);
    assert ("= " + word)[1..] == [' '] + word;
  }

  lemma VisibleEnds(l: string, key: string, word: string)
    requires key != "" && !IsSpace(key[0]) && word != "" && !IsSpace(word[|word| - 1])
    requires l == key + (" = " + word)
    ensures TrimEnd(l) == l && TrimStart(l) == l && key <= l
  {
    assert l[|l| - 1] == word[|word| - 1] && l[0] == key[0];
  }

  lemma SkipSpace(t: string)
    requires t != "" && !IsSpace(t[0])
    ensures TrimStart([' '] + t) == t
  {
    assert ([' '] + t)[1..] == t;
  }

  lemma ReadAssignment(value: bool)
    ensures Enabled(Assignment(value)) == Some(value)
  {
    if value {
      ReadWord("enabled", "true", Assignment(true));
    } else {
      ReadWord("enabled", "false", Assignment(false));
    }
  }

  lemma AssignmentIsEntry(value: bool)
    ensures IsEntry(Assignment(value)) && !IsTable(Assignment(value))
  {
    NotATable(Assignment(value));
    if value {
      EnabledLine();
    } else {
      DisabledLine();
    }
  }

  lemma DisabledLine()
    ensures IsEntry("enabled = false")
  {
  }

  method UpsertBooleanKey(t: string, h: string, value: bool, create: bool) returns (r: string)
    ensures r == UpsertKey(t, h, value, create)
  {
    var lines := Split(t);
    var start := FindTable(lines, h);
    if start < 0 {
      if !create {
        return t;
      }
      return Registered(TrimEnd(t), [h, Assignment(value)]);
    }
    var edited := SetKeyInTable(lines, start, ENABLED, Assignment(value));
    r := OneFinalNewline(Join(edited));
  }
}
