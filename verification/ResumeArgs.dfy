/** Rewriting a command line so that it resumes a session (`src/auth/hotswap.ts`). */
module ResumeArgs {
  import opened Wrappers

  datatype Arity = Single | Variadic

  /** The options that take a value, and how many. */
  type Options = map<string, Arity>

  const OPTIONS: Options := map[
    "-a" := Single, "--ask-for-approval" := Single, "-c" := Single, "--config" := Single, "-C" := Single,
    "--cd" := Single,
    "-i" := Variadic, "--image" := Variadic, "-m" := Single, "--model" := Single, "-p" := Single, "--profile" := Single,
    "-s" := Single, "--sandbox" := Single, "--add-dir" := Single, "--disable" := Single, "--enable" := Single,
    "--local-provider" := Single, "--remote" := Single, "--remote-auth-token-env" := Single]

  const SELECTORS: set<string> := {"--last", "--all", "--include-non-interactive"}

  datatype OptionValue = OptionValue(arity: Arity, attached: bool)

  predicate IsFlag(arg: string) { arg != "" && arg[0] == '-' }

  /** `indexOf("=")`, or the length. */
  function EqualsAt(arg: string): (i: nat)
    ensures i <= |arg|
  {
    if arg == "" || arg[0] == '=' then 0 else 1 + EqualsAt(arg[1..])
  }

  /** `resolveCodexGlobalOptionValue`. */
  function Resolve(arg: string, t: Options): Option<OptionValue> {
    if arg in t then Some(OptionValue(t[arg], false))
    else if "--" <= arg then
      var i := EqualsAt(arg);
      if 2 < i < |arg| && arg[..i] in t then Some(OptionValue(t[arg[..i]], true)) else None
    else if |arg| > 2 && arg[..2] in t then Some(OptionValue(t[arg[..2]], true))
    else None
  }

  ghost predicate FlagOptions(t: Options) { forall o :: o in t ==> IsFlag(o) }

  lemma CodexOptions()
    ensures FlagOptions(OPTIONS)
  {
  }

  lemma OptionsAreFlags(arg: string, t: Options)
    requires FlagOptions(t)
    ensures Resolve(arg, t).Some? ==> IsFlag(arg)
  {
    assert |arg| > 2 && arg[..2] in t ==> IsFlag(arg[..2]);
  }

  // ------------------------------------------------------------------ a command line in parts

  datatype Part =
    | Selector(arg: string)
    | WithValues(arg: string, values: seq<string>)
    | Flag(arg: string)
    | Positional(arg: string)

  function Words(part: Part): seq<string> {
    if part.WithValues? then [part.arg] + part.values else [part.arg]
  }

  function Flatten(parts: seq<Part>): seq<string> {
    if parts == [] then [] else Words(parts[0]) + Flatten(parts[1..])
  }

  /** The words up to the first flag. */
  function ValuesOf(args: seq<string>): (values: seq<string>)
    ensures |values| <= |args|
  {
    if args == [] || IsFlag(args[0]) then [] else [args[0]] + ValuesOf(args[1..])
  }

  /** The part that a command line starts with. */
  function FirstPart(args: seq<string>, t: Options): (part: Part)
    requires args != []
    ensures |Words(part)| <= |args|
  {
    var arg, rest := args[0], args[1..];
    if arg in SELECTORS then Selector(arg)
    else
      match Resolve(arg, t)
      case Some(OptionValue(_, true)) => WithValues(arg, [])
      case Some(OptionValue(Variadic, false)) => WithValues(arg, ValuesOf(rest))
      case Some(OptionValue(Single, false)) => WithValues(arg, if rest == [] then [] else [rest[0]])
      case None => if IsFlag(arg) then Flag(arg) else Positional(arg)
  }

  function Parse(args: seq<string>, t: Options): seq<Part>
    decreases |args|
  {
    if args == [] then [] else [FirstPart(args, t)] + Parse(args[|Words(FirstPart(args, t))|..], t)
  }

  predicate Stays(part: Part) { part.WithValues? || part.Flag? }

  function Kept(parts: seq<Part>): seq<Part> {
    if parts == [] then [] else (if Stays(parts[0]) then [parts[0]] else []) + Kept(parts[1..])
  }

  /** What is kept of the words before `--`: the options with all their values, and other flags. */
  function Preserved(args: seq<string>, t: Options): seq<string> { Flatten(Kept(Parse(args, t))) }

  lemma {:induction false} ValuesArePrefix(args: seq<string>)
    ensures ValuesOf(args) == args[..|ValuesOf(args)|]
  {
    if args != [] && !IsFlag(args[0]) {
      ValuesArePrefix(args[1..]);
    }
  }

  lemma FirstPartIsPrefix(args: seq<string>, t: Options)
    requires args != []
    ensures Words(FirstPart(args, t)) == args[..|Words(FirstPart(args, t))|]
  {
    ValuesArePrefix(args[1..]);
  }

  /** Nothing is lost or reordered in taking a command line apart. */
  lemma {:induction false} PartsAreTheWords(args: seq<string>, t: Options)
    ensures Flatten(Parse(args, t)) == args
    decreases |args|
  {
    if args != [] {
      var part := FirstPart(args, t);
      var n := |Words(part)|;
      PartsAreTheWords(args[n..], t);
      FirstPartIsPrefix(args, t);
      FlattenFirst(part, Parse(args[n..], t));
      CutAt(args, n);
    }
  }

  lemma FlattenFirst(part: Part, parts: seq<Part>)
    ensures Flatten([part] + parts) == Words(part) + Flatten(parts)
  {
    assert ([part] + parts)[1..] == parts;
  }

  lemma CutAt(args: seq<string>, n: nat)
    requires n <= |args|
    ensures args[..n] + args[n..] == args
  {
  }

  // ------------------------------------------------------------------ what becomes of one word

  /** Of the options only `-i` and `--image` take any number of words. */
  lemma VariadicOptions()
    ensures forall o :: o in OPTIONS ==> (OPTIONS[o] == Variadic <==> o in ["-i", "--image"])
    ensures forall o :: o in ["--last", "--all", "--include-non-interactive"] ==> o !in OPTIONS
  {
  }

  /** A selector goes, wherever it stands as a word of its own. */
  lemma SelectorGoes(args: seq<string>, t: Options)
    requires args != [] && args[0] in ["--last", "--all", "--include-non-interactive"]
    ensures Preserved(args, t) == Preserved(args[1..], t)
  {
    PreservedStep(args, t);
    assert [] + Preserved(args[1..], t) == Preserved(args[1..], t);
  }

  /** An option with one value stays with the next word, whatever that looks like. */
  lemma SingleStays(args: seq<string>, t: Options)
    requires args != [] && args[0] !in SELECTORS && args[0] in t && t[args[0]] == Single
    ensures Preserved(args, t) == if |args| == 1 then args else args[..2] + Preserved(args[2..], t)
  {
    PreservedStep(args, t);
    if |args| == 1 {
      assert args[1..] == [] && args == [args[0]];
    } else {
      assert args[..2] == [args[0], args[1]];
    }
  }

  /** An option with any number of values stays with all words up to the next that starts with a dash. */
  lemma VariadicStays(args: seq<string>, n: nat, t: Options)
    requires 0 < n <= |args| && args[0] !in SELECTORS && args[0] in t && t[args[0]] == Variadic
    requires forall i :: 1 <= i < n ==> args[i] == "" || args[i][0] != '-'
    requires n < |args| ==> args[n] != "" && args[n][0] == '-'
    ensures Preserved(args, t) == args[..n] + Preserved(args[n..], t)
  {
    PreservedStep(args, t);
    ValuesUpTo(args[1..], n - 1);
    assert args[..n] == [args[0]] + args[1..][..n - 1];
  }

  lemma {:induction false} ValuesUpTo(args: seq<string>, n: nat)
    requires n <= |args| && forall i :: 0 <= i < n ==> !IsFlag(args[i])
    requires n < |args| ==> IsFlag(args[n])
    ensures ValuesOf(args) == args[..n]
  {
    if n > 0 {
      ValuesUpTo(args[1..], n - 1);
      assert args[..n] == [args[0]] + args[1..][..n - 1];
    }
  }

  /** An option with its value attached stays alone: after the first `=` of a long one, or after the two characters of a
      short one. */
  lemma AttachedStays(args: seq<string>, name: string, value: string, t: Options)
    requires args != [] && args[0] !in SELECTORS && args[0] !in t && name in t
    requires || (args[0] == name + "=" + value && "--" <= name && |name| > 2 && '=' !in name)
             || (args[0] == name + value && |name| == 2 && value != "" && name != "--")
    ensures Preserved(args, t) == [args[0]] + Preserved(args[1..], t)
  {
    PreservedStep(args, t);
    if |name| == 2 {
      assert args[0][..2] == name;
    } else {
      EqualsAfter(name, value);
      assert args[0][..|name|] == name;
    }
  }

  lemma {:induction false} EqualsAfter(name: string, value: string)
    requires '=' !in name
    ensures EqualsAt(name + "=" + value) == |name|
  {
    if name != "" {
      EqualsAfter(name[1..], value);
      assert (name + "=" + value)[1..] == name[1..] + "=" + value;
    }
  }

  /** A word that is no option stays when it starts with a dash, and goes otherwise. */
  lemma OtherWord(args: seq<string>, t: Options)
    requires args != [] && args[0] !in SELECTORS && Resolve(args[0], t) == None
    ensures Preserved(args, t) ==
              (if args[0] != "" && args[0][0] == '-' then [args[0]] else []) + Preserved(args[1..], t)
  {
    PreservedStep(args, t);
  }

  // ------------------------------------------------------------------ the loop

  /** What is preserved so far and what the rest still gives make up the whole. */
  ghost predicate Divides(preserved: seq<string>, rest: seq<string>, prefix: seq<string>, t: Options) {
    preserved + Preserved(rest, t) == Preserved(prefix, t)
  }

  function KeptWords(part: Part): seq<string> { if Stays(part) then Words(part) else [] }

  lemma PreservedStep(args: seq<string>, t: Options)
    requires args != []
    ensures Preserved(args, t) == KeptWords(FirstPart(args, t)) + Preserved(args[|Words(FirstPart(args, t))|..], t)
  {
    var part := FirstPart(args, t);
    var parts := Parse(args[|Words(part)|..], t);
    assert Parse(args, t) == [part] + parts;
    FlattenKept(part, parts);
  }

  lemma FlattenKept(part: Part, parts: seq<Part>)
    ensures Flatten(Kept([part] + parts)) == KeptWords(part) + Flatten(Kept(parts))
  {
    var later := Kept(parts);
    assert ([part] + parts)[1..] == parts;
    assert ([part] + later)[1..] == later && [] + later == later;
    assert [] + Flatten(later) == Flatten(later);
  }

  lemma Advance(preserved: seq<string>, rest: seq<string>, prefix: seq<string>, t: Options)
    requires Divides(preserved, rest, prefix, t) && rest != []
    ensures var part := FirstPart(rest, t);
            Divides(preserved + KeptWords(part), rest[|Words(part)|..], prefix, t)
  {
    var part := FirstPart(rest, t);
    PreservedStep(rest, t);
    Associate(preserved, KeptWords(part), Preserved(rest[|Words(part)|..], t));
  }

  lemma DividesAtEnds(preserved: seq<string>, prefix: seq<string>, t: Options)
    ensures Divides([], prefix, prefix, t)
    ensures Divides(preserved, [], prefix, t) ==> preserved == Preserved(prefix, t)
  {
    assert [] + Preserved(prefix, t) == Preserved(prefix, t);
    assert Preserved([], t) == [] && preserved + [] == preserved;
  }

  /** The inner loop, over the values of a variadic option. */
  method TakeValues(prefix: seq<string>, start: nat) returns (index: nat, values: seq<string>)
    requires start <= |prefix|
    ensures values == ValuesOf(prefix[start..]) && index == start + |values|
  {
    index, values := start, [];
    assert [] + ValuesOf(prefix[start..]) == ValuesOf(prefix[start..]);
    while index < |prefix| && !IsFlag(prefix[index])
      invariant start <= index <= |prefix| && index == start + |values|
      invariant values + ValuesOf(prefix[index..]) == ValuesOf(prefix[start..])
    {
      assert prefix[index..][1..] == prefix[index + 1..];
      assert values + ([prefix[index]] + ValuesOf(prefix[index + 1..])) ==
          (values + [prefix[index]]) + ValuesOf(prefix[index + 1..]);
      values := values + [prefix[index]];
      index := index + 1;
    }
    assert ValuesOf(prefix[index..]) == [] && values + [] == values;
  }

  /** The loop body: one part of the command line. */
  method TakePart(prefix: seq<string>, start: nat, t: Options) returns (index: nat, preserved: seq<string>)
    requires start < |prefix|
    ensures var part := FirstPart(prefix[start..], t);
            index == start + |Words(part)| && preserved == KeptWords(part)
  {
    var arg := prefix[start];
    ghost var rest := prefix[start..];
    assert rest[0] == arg && rest[1..] == prefix[start + 1..];
    index := start + 1;
    if arg in SELECTORS {
      return index, [];
    }
    var option := Resolve(arg, t);
    if option.Some? {
      preserved := [arg];
      if option.value.attached {
        return;
      }
      if option.value.arity == Variadic {
        var values;
        index, values := TakeValues(prefix, index);
        preserved := preserved + values;
      } else if index < |prefix| {
        preserved := preserved + [prefix[index]];
        index := index + 1;
      }
      return;
    }
    preserved := if IsFlag(arg) then [arg] else [];
  }

  /** The loop of `buildResumeArgsWithPreservedFlags`. */
  method PreserveFlags(prefix: seq<string>, t: Options) returns (preserved: seq<string>)
    ensures preserved == Preserved(prefix, t)
  {
    preserved := [];
    var index := 0;
    ghost var rest := prefix;
    DividesAtEnds([], prefix, t);
    while index < |prefix|
      invariant index <= |prefix| && rest == prefix[index..] && Divides(preserved, rest, prefix, t)
    {
      Advance(preserved, rest, prefix, t);
      ghost var part := FirstPart(rest, t);
      var words;
      index, words := TakePart(prefix, index, t);
      preserved := preserved + words;
      rest := rest[|Words(part)|..];
    }
    DividesAtEnds(preserved, prefix, t);
  }

  /** `indexOf("--")`, or the length. */
  function EndOfOptions(args: seq<string>): (i: nat)
    ensures i <= |args| && "--" !in args[..i] && (i < |args| ==> args[i] == "--")
  {
    if args == [] || args[0] == "--" then 0
    else
      var i := EndOfOptions(args[1..]);
      assert args[..i + 1] == [args[0]] + args[1..][..i];
      1 + i
  }

  function Resumed(args: seq<string>, id: string, t: Options): seq<string> {
    var end := EndOfOptions(args);
    ["resume", id] + Preserved(args[..end], t) + args[end..]
  }

  /** `buildResumeArgsWithPreservedFlags`. */
  method BuildResumeArgs(args: seq<string>, id: string, t: Options) returns (r: seq<string>)
    ensures r == Resumed(args, id, t)
  {
    var end := EndOfOptions(args);
    var preserved := PreserveFlags(args[..end], t);
    r := ["resume", id] + preserved + args[end..];
  }

  // ------------------------------------------------------------------ rebuilding

  lemma {:induction false} ValuesAgain(values: seq<string>, rest: seq<string>)
    requires ValuesOf(values) == values && (rest == [] || IsFlag(rest[0]))
    ensures ValuesOf(values + rest) == values
  {
    if values == [] {
      assert values + rest == rest;
    } else {
      assert (values + rest)[1..] == values[1..] + rest;
      ValuesAreValues(values);
      ValuesAgain(values[1..], rest);
    }
  }

  lemma ValuesAreValues(values: seq<string>)
    requires values != [] && ValuesOf(values) == values
    ensures !IsFlag(values[0]) && ValuesOf(values[1..]) == values[1..]
  {
    assert values == [values[0]] + ValuesOf(values[1..]);
  }

  lemma {:induction false} ValuesOfValues(args: seq<string>)
    ensures ValuesOf(ValuesOf(args)) == ValuesOf(args)
  {
    if args != [] && !IsFlag(args[0]) {
      ValuesOfValues(args[1..]);
      assert ([args[0]] + ValuesOf(args[1..]))[1..] == ValuesOf(args[1..]);
    }
  }

  /** A part that stays is found again in front of whatever was kept after it; nothing follows an option cut short. */
  lemma PartAgain(args: seq<string>, rest: seq<string>, t: Options)
    requires args != [] && Stays(FirstPart(args, t))
    requires rest == [] || IsFlag(rest[0])
    requires |Words(FirstPart(args, t))| == |args| ==> rest == []
    ensures FirstPart(Words(FirstPart(args, t)) + rest, t) == FirstPart(args, t)
  {
    var arg, part := args[0], FirstPart(args, t);
    var again := Words(part) + rest;
    assert again[0] == arg;
    if part.WithValues? {
      assert again[1..] == part.values + rest;
      ValuesOfValues(args[1..]);
      if Resolve(arg, t) == Some(OptionValue(Variadic, false)) {
        ValuesAgain(part.values, rest);
      }
    } else {
      assert again[1..] == rest;
    }
  }

  lemma {:induction false} PreservedStarts(args: seq<string>, t: Options)
    requires FlagOptions(t)
    ensures Preserved(args, t) == [] || IsFlag(Preserved(args, t)[0])
    ensures args == [] ==> Preserved(args, t) == []
    decreases |args|
  {
    if args != [] {
      PreservedStep(args, t);
      OptionsAreFlags(args[0], t);
      PreservedStarts(args[|Words(FirstPart(args, t))|..], t);
    }
  }

  /** What was preserved is preserved again. */
  lemma {:induction false} PreservedAgain(args: seq<string>, t: Options)
    requires FlagOptions(t)
    ensures Preserved(Preserved(args, t), t) == Preserved(args, t)
    decreases |args|
  {
    if args != [] {
      var part := FirstPart(args, t);
      var rest := args[|Words(part)|..];
      PreservedStep(args, t);
      PreservedAgain(rest, t);
      PreservedStarts(rest, t);
      if Stays(part) {
        var again := Words(part) + Preserved(rest, t);
        PartAgain(args, Preserved(rest, t), t);
        PreservedStep(again, t);
        assert again[|Words(part)|..] == Preserved(rest, t);
      } else {
        assert [] + Preserved(rest, t) == Preserved(rest, t);
      }
    }
  }

  lemma {:induction false} PreservedWords(args: seq<string>, t: Options)
    ensures forall w :: w in Preserved(args, t) ==> w in args
    decreases |args|
  {
    if args != [] {
      PreservedStep(args, t);
      FirstPartIsPrefix(args, t);
      PreservedWords(args[|Words(FirstPart(args, t))|..], t);
    }
  }

  lemma DropPositional(word: string, rest: seq<string>, t: Options)
    requires FlagOptions(t)
    requires !IsFlag(word)
    ensures Preserved([word] + rest, t) == Preserved(rest, t)
  {
    var args := [word] + rest;
    OptionsAreFlags(word, t);
    PreservedStep(args, t);
    assert word !in SELECTORS;
    assert args[1..] == rest && [] + Preserved(rest, t) == Preserved(rest, t);
  }

  lemma {:induction false} EndFound(before: seq<string>, after: seq<string>)
    requires "--" !in before && (after == [] || after[0] == "--")
    ensures EndOfOptions(before + after) == |before|
  {
    if before == [] {
      assert before + after == after;
    } else {
      assert (before + after)[1..] == before[1..] + after;
      EndFound(before[1..], after);
    }
  }

  lemma CutAtEnd(before: seq<string>, tail: seq<string>)
    requires "--" !in before && (tail == [] || tail[0] == "--")
    ensures var end := EndOfOptions(before + tail);
            (before + tail)[..end] == before && (before + tail)[end..] == tail
  {
    EndFound(before, tail);
  }

  /** How an output reads when it is taken as input. */
  lemma OutputParts(args: seq<string>, id: string, t: Options)
    requires FlagOptions(t)
    requires id != "--"
    ensures var out, end, all := Resumed(args, id, t), EndOfOptions(Resumed(args, id, t)), EndOfOptions(args);
            && out[end..] == args[all..]
            && Preserved(out[..end], t) == Preserved([id] + Preserved(args[..all], t), t)
  {
    var all := EndOfOptions(args);
    var kept := Preserved(args[..all], t);
    var before := ["resume", id] + kept;
    PreservedWords(args[..all], t);
    CutAtEnd(before, args[all..]);
    assert before == ["resume"] + ([id] + kept);
    DropPositional("resume", [id] + kept, t);
  }

  lemma OnlyTheIdDiffers(args: seq<string>, id: string, next: string, t: Options)
    ensures Resumed(args, id, t)[1 := next] == Resumed(args, next, t)
  {
  }

  lemma DropSelector(word: string, rest: seq<string>, t: Options)
    requires word in SELECTORS
    ensures Preserved([word] + rest, t) == Preserved(rest, t)
  {
    var args := [word] + rest;
    PreservedStep(args, t);
    assert FirstPart(args, t) == Selector(word);
    assert args[1..] == rest && [] + Preserved(rest, t) == Preserved(rest, t);
  }

  /** An option with one value takes the next word, and what is kept is never what was there without it. */
  lemma {:induction false} SingleOptionShifts(word: string, kept: seq<string>, t: Options)
    requires word !in SELECTORS && Resolve(word, t) == Some(OptionValue(Single, false))
    ensures Preserved([word] + kept, t) != kept
    decreases |kept|
  {
    var args := [word] + kept;
    PreservedStep(args, t);
    assert args[0] == word && args[1..] == kept;
    if kept == [] {
      assert FirstPart(args, t) == WithValues(word, []);
    } else {
      assert FirstPart(args, t) == WithValues(word, [kept[0]]);
      assert args[2..] == kept[1..];
      if Preserved(args, t) == kept {
        assert kept == [word, kept[0]] + Preserved(kept[1..], t);
        assert kept[1] == kept[0] == word;
        assert kept[1..] == [word] + kept[2..];
        assert kept[2..] == Preserved(kept[1..], t);
        SingleOptionShifts(word, kept[2..], t);
      }
    }
  }

  /** Any other flag stays in front. */
  lemma FlagStays(word: string, kept: seq<string>, t: Options)
    requires IsFlag(word) && word !in SELECTORS && Resolve(word, t) != Some(OptionValue(Single, false))
    requires (kept == [] || IsFlag(kept[0])) && Preserved(kept, t) == kept
    ensures Preserved([word] + kept, t) == [word] + kept
  {
    var args := [word] + kept;
    PreservedStep(args, t);
    assert args[0] == word && args[1..] == kept;
    assert ValuesOf(kept) == [];
    assert KeptWords(FirstPart(args, t)) == [word];
  }

  lemma IdAgain(id: string, kept: seq<string>, t: Options)
    requires FlagOptions(t) && (kept == [] || IsFlag(kept[0])) && Preserved(kept, t) == kept
    ensures Preserved([id] + kept, t) == kept <==> !IsFlag(id) || id in SELECTORS
  {
    if !IsFlag(id) {
      DropPositional(id, kept, t);
    } else if id in SELECTORS {
      DropSelector(id, kept, t);
    } else if Resolve(id, t) == Some(OptionValue(Single, false)) {
      SingleOptionShifts(id, kept, t);
    } else {
      FlagStays(id, kept, t);
    }
  }

  /** An id `--` ends the options at once, and everything after it is taken for untouchable. */
  lemma DashesStay(args: seq<string>, next: string, t: Options)
    requires FlagOptions(t)
    ensures |Resumed(Resumed(args, "--", t), next, t)| == |Resumed(args, "--", t)| + 1
  {
    var out := Resumed(args, "--", t);
    CutAtEnd(["resume"], out[1..]);
    assert out == ["resume"] + out[1..];
    DropPositional("resume", [], t);
    assert ["resume"] + [] == ["resume"];
  }

  lemma SameEnds(a: seq<string>, b: seq<string>, front: seq<string>, end: seq<string>)
    ensures front + a + end == front + b + end <==> a == b
  {
    if front + a + end == front + b + end {
      assert a == (front + a + end)[|front|..|front| + |a|];
      assert b == (front + b + end)[|front|..|front| + |b|];
    }
  }

  /** Rebuilding from its own output changes the id and nothing else exactly when the id does not start with a dash,
      or is a selector, which rebuilding drops again. */
  lemma RebuildingIsStable(args: seq<string>, id: string, next: string, t: Options)
    requires FlagOptions(t)
    ensures Resumed(Resumed(args, id, t), next, t) == Resumed(args, id, t)[1 := next] <==>
              !IsFlag(id) || id in SELECTORS
  {
    OnlyTheIdDiffers(args, id, next, t);
    if id == "--" {
      DashesStay(args, next, t);
    } else {
      var end := EndOfOptions(args);
      var kept := Preserved(args[..end], t);
      OutputParts(args, id, t);
      PreservedAgain(args[..end], t);
      PreservedStarts(args[..end], t);
      IdAgain(id, kept, t);
      SameEnds(Preserved([id] + kept, t), kept, ["resume", next], args[end..]);
    }
  }

  /** An id that looks like a flag and takes no value word is taken for one when rebuilding, and stays. */
  lemma FlagIdStays(args: seq<string>, id: string, next: string, t: Options)
    requires FlagOptions(t) && IsFlag(id) && id != "--" && id !in SELECTORS
              && Resolve(id, t) != Some(OptionValue(Single, false))
    ensures var end := EndOfOptions(args);
            Resumed(Resumed(args, id, t), next, t) ==
              ["resume", next] + ([id] + Preserved(args[..end], t)) + args[end..]
  {
    var end := EndOfOptions(args);
    OutputParts(args, id, t);
    PreservedAgain(args[..end], t);
    PreservedStarts(args[..end], t);
    FlagStays(id, Preserved(args[..end], t), t);
  }

  /** Everything from `--` on is untouched, and of what comes before exactly the options with their values and the other
      flags are left, in their order. */
  lemma ResumedKeepsOptions(args: seq<string>, id: string, t: Options)
    ensures var end := EndOfOptions(args);
            var r := Resumed(args, id, t);
            && r[..2] == ["resume", id]
            && r[2..] == Flatten(Kept(Parse(args[..end], t))) + args[end..]
            && Flatten(Parse(args[..end], t)) + args[end..] == args
  {
    var end := EndOfOptions(args);
    PartsAreTheWords(args[..end], t);
    CutAt(args, end);
    TwoInFront("resume", id, Preserved(args[..end], t), args[end..]);
  }

  lemma TwoInFront(a: string, b: string, middle: seq<string>, end: seq<string>)
    ensures var r := [a, b] + middle + end;
            r[..2] == [a, b] && r[2..] == middle + end
  {
    Associate([a, b], middle, end);
  }
}
