/** Bringing the plugin cache up to date in place (`src/cli/plugin-marketplace.ts`). */
module CacheOverlay {
  import opened Wrappers

  type Path = seq<string>

  datatype Tree = File(content: string) | Dir(entries: map<string, Tree>)

  // ------------------------------------------------------------------ trees and paths

  function GetAt(t: Tree, p: Path): Option<Tree> {
    if p == [] then Some(t)
    else if t.Dir? && p[0] in t.entries then GetAt(t.entries[p[0]], p[1..])
    else None
  }

  predicate IsDirAt(t: Tree, p: Path) { GetAt(t, p).Some? && GetAt(t, p).value.Dir? }

  predicate IsFileAt(t: Tree, p: Path) { GetAt(t, p).Some? && GetAt(t, p).value.File? }

  /** Everything on the way to the path is a directory. */
  predicate HasParent(t: Tree, p: Path) {
    p != [] ==> t.Dir? && (|p| > 1 ==> p[0] in t.entries && HasParent(t.entries[p[0]], p[1..]))
  }

  function SetAt(t: Tree, p: Path, x: Tree): Tree
    requires HasParent(t, p)
  {
    if p == [] then x
    else if |p| == 1 then Dir(t.entries[p[0] := x])
    else Dir(t.entries[p[0] := SetAt(t.entries[p[0]], p[1..], x)])
  }

  function RemoveAt(t: Tree, p: Path): Tree
    requires HasParent(t, p) && p != []
  {
    if |p| == 1 then Dir(t.entries - {p[0]})
    else Dir(t.entries[p[0] := RemoveAt(t.entries[p[0]], p[1..])])
  }

  /** No entry anywhere in the tree has this name. */
  predicate NameFree(t: Tree, name: string) {
    t.Dir? ==> name !in t.entries && forall n :: n in t.entries ==> NameFree(t.entries[n], name)
  }

  lemma {:induction false} SetAndGet(t: Tree, p: Path, x: Tree, y: Tree)
    requires HasParent(t, p)
    ensures HasParent(SetAt(t, p, x), p)
    ensures GetAt(SetAt(t, p, x), p) == Some(x)
    ensures SetAt(SetAt(t, p, x), p, y) == SetAt(t, p, y)
  {
    if |p| == 1 {
      assert p[1..] == [];
      assert t.entries[p[0] := x][p[0] := y] == t.entries[p[0] := y];
    } else if p != [] {
      SetAndGet(t.entries[p[0]], p[1..], x, y);
      var u, v := SetAt(t.entries[p[0]], p[1..], x), SetAt(t.entries[p[0]], p[1..], y);
      assert t.entries[p[0] := u][p[0] := v] == t.entries[p[0] := v];
    }
  }

  lemma {:induction false} SetWhatIsThere(t: Tree, p: Path)
    requires GetAt(t, p).Some?
    ensures HasParent(t, p) && SetAt(t, p, GetAt(t, p).value) == t
  {
    if p != [] {
      SetWhatIsThere(t.entries[p[0]], p[1..]);
      assert |p| == 1 ==> p[1..] == [];
      assert t.entries[p[0] := t.entries[p[0]]] == t.entries;
    }
  }

  /** Changing an entry of a directory is changing the directory. */
  lemma {:induction false} ChildOf(t: Tree, p: Path, n: string, x: Tree)
    requires IsDirAt(t, p)
    ensures HasParent(t, p) && HasParent(t, p + [n])
    ensures var d := GetAt(t, p).value.entries;
            && GetAt(t, p + [n]) == (if n in d then Some(d[n]) else None)
            && SetAt(t, p + [n], x) == SetAt(t, p, Dir(d[n := x]))
            && RemoveAt(t, p + [n]) == SetAt(t, p, Dir(d - {n}))
  {
    if p == [] {
      assert p + [n] == [n] && [n][1..] == [];
    } else {
      assert (p + [n])[1..] == p[1..] + [n];
      ChildOf(t.entries[p[0]], p[1..], n, x);
      SetWhatIsThere(t, p);
      assert |p| == 1 ==> p[1..] == [];
    }
  }

  // ------------------------------------------------------------------ what a reader may see on the way

  /** The entries that are the same kind of thing before and after. */
  ghost predicate Stays(n: string, before: map<string, Tree>, after: map<string, Tree>) {
    n in before && n in after && before[n].File? == after[n].File?
  }

  /** What stays is never missing: a file shows its old or its new content. */
  ghost predicate Visible(shown: Tree, before: Tree, after: Tree)
    decreases after
  {
    if before.File? && after.File? then shown == before || shown == after
    else if before.Dir? && after.Dir? then
      shown.Dir? && forall n :: Stays(n, before.entries, after.entries) ==>
        n in shown.entries && Visible(shown.entries[n], before.entries[n], after.entries[n])
    else true
  }

  lemma {:induction false} EndsAreVisible(before: Tree, after: Tree)
    ensures Visible(before, before, after) && Visible(after, before, after)
    decreases after
  {
    if before.Dir? && after.Dir? {
      forall n | Stays(n, before.entries, after.entries)
        ensures Visible(before.entries[n], before.entries[n], after.entries[n])
        ensures Visible(after.entries[n], before.entries[n], after.entries[n])
      {
        EndsAreVisible(before.entries[n], after.entries[n]);
      }
    }
  }

  /** Only the tree at `p` differs from the start, it is a directory, and a reader finds in it what it may count on. */
  ghost predicate Shows(state: Tree, start: Tree, p: Path, before: Tree, after: Tree) {
    && HasParent(start, p) && IsDirAt(state, p)
    && state == SetAt(start, p, GetAt(state, p).value)
    && Visible(GetAt(state, p).value, before, after)
  }

  ghost predicate AllShow(states: seq<Tree>, start: Tree, p: Path, before: Tree, after: Tree) {
    forall i :: 0 <= i < |states| ==> Shows(states[i], start, p, before, after)
  }

  /** The destination directory while the entries named in `done` have been brought up to date. */
  ghost predicate Midway(d: map<string, Tree>, before: map<string, Tree>, after: map<string, Tree>, done: set<string>) {
    && done <= after.Keys
    && (forall n :: n in done ==> n in d && d[n] == after[n])
    && (forall n :: n !in done ==> (n in d <==> n in before))
    && (forall n :: n !in done && n in d ==> d[n] == before[n])
  }

  /** Midway, with any acceptable stand-in for the entry being worked on. */
  lemma MidwayShows(start: Tree, p: Path, d: map<string, Tree>, before: map<string, Tree>, after: map<string, Tree>,
                    done: set<string>, n: string, e: map<string, Tree>)
    requires HasParent(start, p) && Midway(d, before, after, done)
    requires forall m :: m in d && m in after && m != n ==> m in e && e[m] == d[m]
    requires Stays(n, before, after) ==> n in e && Visible(e[n], before[n], after[n])
    ensures Shows(SetAt(start, p, Dir(e)), start, p, Dir(before), Dir(after))
  {
    SetAndGet(start, p, Dir(e), Dir(e));
    forall m | Stays(m, before, after) ensures m in e && Visible(e[m], before[m], after[m]) {
      EndsAreVisible(before[m], after[m]);
    }
  }

  lemma MidwayStep(d: map<string, Tree>, before: map<string, Tree>, after: map<string, Tree>, done: set<string>,
                   n: string)
    requires Midway(d, before, after, done) && n in after
    ensures Midway(d[n := after[n]], before, after, done + {n})
  {
  }

  /** What there is at, and what happens to, an entry of the directory at `p`. */
  lemma EntryOf(start: Tree, p: Path, d: map<string, Tree>, n: string, x: Tree)
    requires HasParent(start, p)
    ensures var t := SetAt(start, p, Dir(d));
            && GetAt(t, p) == Some(Dir(d)) && HasParent(t, p + [n])
            && GetAt(t, p + [n]) == (if n in d then Some(d[n]) else None)
            && SetAt(t, p + [n], x) == SetAt(start, p, Dir(d[n := x]))
            && RemoveAt(t, p + [n]) == SetAt(start, p, Dir(d - {n}))
  {
    var t := SetAt(start, p, Dir(d));
    SetAndGet(start, p, Dir(d), Dir(d[n := x]));
    SetAndGet(start, p, Dir(d), Dir(d - {n}));
    ChildOf(t, p, n, x);
  }

  class Volume {
    var tree: Tree
    ghost var history: seq<Tree>   // the state after every step

    /** `mkdir` of a directory whose parent is there. */
    method MakeDir(p: Path)
      requires HasParent(tree, p) && !IsFileAt(tree, p)
      modifies this
      ensures tree == if IsDirAt(old(tree), p) then old(tree) else SetAt(old(tree), p, Dir(map[]))
      ensures history == old(history) + [tree]
    {
      if !IsDirAt(tree, p) {
        tree := SetAt(tree, p, Dir(map[]));
      }
      history := history + [tree];
    }

    /** `rm` with `recursive` and `force`, of an entry of the directory at `p`. */
    method RemoveEntry(p: Path, n: string, ghost start: Tree, ghost d: map<string, Tree>)
      requires HasParent(start, p) && tree == SetAt(start, p, Dir(d))
      modifies this
      ensures tree == SetAt(start, p, Dir(d - {n})) && history == old(history) + [tree]
    {
      EntryOf(start, p, d, n, tree);
      tree := RemoveAt(tree, p + [n]);
      history := history + [tree];
    }

    /** `cp` of one file to an entry of the directory at `p`. */
    method WriteEntry(p: Path, n: string, content: string, ghost start: Tree, ghost d: map<string, Tree>)
      requires HasParent(start, p) && tree == SetAt(start, p, Dir(d)) && (n in d ==> d[n].File?)
      modifies this
      ensures tree == SetAt(start, p, Dir(d[n := File(content)])) && history == old(history) + [tree]
    {
      EntryOf(start, p, d, n, File(content));
      tree := SetAt(tree, p + [n], File(content));
      history := history + [tree];
    }

    /** `rename` within the directory at `p`, over anything that is not a directory. */
    method RenameEntry(p: Path, from: string, to: string, ghost start: Tree, ghost d: map<string, Tree>)
      requires HasParent(start, p) && tree == SetAt(start, p, Dir(d))
      requires from != to && from in d && (to in d ==> d[to].File?)
      modifies this
      ensures tree == SetAt(start, p, Dir((d - {from})[to := d[from]])) && history == old(history) + [tree]
    {
      SetAndGet(start, p, Dir(d), Dir((d - {from})[to := d[from]]));
      var entries := GetAt(tree, p).value.entries;
      tree := SetAt(tree, p, Dir((entries - {from})[to := entries[from]]));
      history := history + [tree];
    }

    /** `rm` of what stands in the way of a file: a directory. */
    method ClearDirectory(p: Path, n: string, ghost start: Tree, ghost d: map<string, Tree>)
      returns (ghost states: seq<Tree>, ghost e: map<string, Tree>)
      requires HasParent(start, p) && tree == SetAt(start, p, Dir(d))
      modifies this
      ensures e == (if n in d && d[n].Dir? then d - {n} else d) && tree == SetAt(start, p, Dir(e))
      ensures history == old(history) + states && (states == [] || states == [tree])
    {
      EntryOf(start, p, d, n, tree);
      states, e := [], d;
      if IsDirAt(tree, p + [n]) {
        RemoveEntry(p, n, start, d);
        states, e := [tree], d - {n};
      }
    }

    /** `copyFileAtomically`: through a temporary name, so that the file is replaced in one step. */
    method CopyFileAtomically(content: string, p: Path, n: string, tmp: string, ghost start: Tree,
                              ghost d: map<string, Tree>, ghost before: map<string, Tree>,
                              ghost after: map<string, Tree>, ghost done: set<string>)
      returns (ghost states: seq<Tree>)
      requires HasParent(start, p) && tree == SetAt(start, p, Dir(d)) && Midway(d, before, after, done)
      requires n in after && after[n] == File(content) && n !in done && tmp !in d && tmp !in after
      modifies this
      ensures tree == SetAt(start, p, Dir(d[n := after[n]]))
      ensures history == old(history) + states && AllShow(states, start, p, Dir(before), Dir(after))
    {
      CopySteps(start, p, d, before, after, done, n, tmp);
      ghost var written := d[tmp := after[n]];
      WriteEntry(p, tmp, content, start, d);
      states := [tree];
      ghost var cleared, more;
      more, cleared := ClearDirectory(p, n, start, written);
      states := states + more;
      RenameEntry(p, tmp, n, start, cleared);
      states := states + [tree];
    }

    /** The first loop body for a subdirectory. */
    method OverlayChild(source: Tree, p: Path, n: string, tmp: string, ghost start: Tree, ghost d: map<string, Tree>,
                        ghost before: map<string, Tree>, ghost after: map<string, Tree>, ghost done: set<string>)
      returns (ghost states: seq<Tree>)
      requires HasParent(start, p) && tree == SetAt(start, p, Dir(d)) && Midway(d, before, after, done)
      requires n in after && after[n] == source && source.Dir? && n !in done
      requires NameFree(source, tmp) && NameFree(Dir(d), tmp)
      modifies this
      ensures tree == SetAt(start, p, Dir(d[n := source]))
      ensures history == old(history) + states && AllShow(states, start, p, Dir(before), Dir(after))
      decreases source, 2
    {
      EntryOf(start, p, d, n, source);
      states := [];
      ghost var e := d;
      if GetAt(tree, p + [n]).Some? && !IsDirAt(tree, p + [n]) {
        RemoveEntry(p, n, start, d);
        e := d - {n};
        MidwayShows(start, p, d, before, after, done, n, e);
        states := [tree];
        EntryOf(start, p, e, n, source);
        assert e[n := source] == d[n := source];
      }
      ghost var more := Overlay(source, p + [n], tmp);
      NestedShows(more, start, p, d, before, after, done, n, e);
      states := states + more;
    }

    /** `overlayDirectoryKeepingRootPresent`. */
    method Overlay(source: Tree, p: Path, tmp: string) returns (ghost states: seq<Tree>)
      requires source.Dir? && HasParent(tree, p) && !IsFileAt(tree, p)
      requires NameFree(source, tmp) && NameFree(Was(tree, p), tmp)
      modifies this
      ensures tree == SetAt(old(tree), p, source)
      ensures history == old(history) + states && AllShow(states, old(tree), p, Was(old(tree), p), source)
      decreases source, 1
    {
      ghost var start, before, after := tree, Was(tree, p).entries, source.entries;
      MakeDir(p);
      MadeShows(start, p, tree, after);
      states := [tree];
      ghost var d, done: set<string> := before, {};
      var remaining := source.entries.Keys;
      while remaining != {}
        invariant HasParent(start, p) && tree == SetAt(start, p, Dir(d)) && Midway(d, before, after, done)
        invariant remaining == after.Keys - done && NameFree(Dir(d), tmp)
        invariant history == old(history) + states && AllShow(states, start, p, Dir(before), Dir(after))
        decreases remaining
      {
        var n :| n in remaining;
        var entry := source.entries[n];
        ghost var more;
        if entry.Dir? {
          more := OverlayChild(entry, p, n, tmp, start, d, before, after, done);
        } else {
          more := CopyFileAtomically(entry.content, p, n, tmp, start, d, before, after, done);
        }
        MidwayStep(d, before, after, done, n);
        states := states + more;
        d, done := d[n := entry], done + {n};
        remaining := remaining - {n};
      }
      ghost var more := RemoveExtras(p, source, start, d, before, done);
      states := states + more;
    }

    /** The removal of every destination entry that the source does not have. */
    method RemoveExtras(p: Path, source: Tree, ghost start: Tree, ghost d: map<string, Tree>,
                        ghost before: map<string, Tree>, ghost done: set<string>)
      returns (ghost states: seq<Tree>)
      requires source.Dir? && HasParent(start, p) && tree == SetAt(start, p, Dir(d))
      requires Midway(d, before, source.entries, done) && done == source.entries.Keys
      modifies this
      ensures tree == SetAt(start, p, source)
      ensures history == old(history) + states && AllShow(states, start, p, Dir(before), source)
    {
      SetAndGet(start, p, Dir(d), Dir(d));
      var extras := GetAt(tree, p).value.entries.Keys - source.entries.Keys;
      states := [];
      ghost var e := d;
      while extras != {}
        invariant tree == SetAt(start, p, Dir(e)) && extras == e.Keys - source.entries.Keys
        invariant forall m :: m in source.entries ==> m in e && e[m] == source.entries[m]
        invariant history == old(history) + states && AllShow(states, start, p, Dir(before), source)
        decreases extras
      {
        var n :| n in extras;
        RemoveEntry(p, n, start, e);
        e := e - {n};
        MidwayShows(start, p, d, before, source.entries, done, n, e);
        states := states + [tree];
        extras := extras - {n};
      }
      assert e.Keys == source.entries.Keys by {
        assert forall m :: m in e.Keys ==> m in source.entries.Keys || m in extras;
      }
      assert e == source.entries;
    }
  }

  /** What was at the destination: nothing counts as an empty directory. */
  function Was(t: Tree, p: Path): Tree { if IsDirAt(t, p) then GetAt(t, p).value else Dir(map[]) }

  /** Once the root is there, it is there with what it held. */
  lemma MadeShows(start: Tree, p: Path, made: Tree, after: map<string, Tree>)
    requires HasParent(start, p) && !IsFileAt(start, p)
    requires made == if IsDirAt(start, p) then start else SetAt(start, p, Dir(map[]))
    ensures made == SetAt(start, p, Was(start, p)) && Shows(made, start, p, Was(start, p), Dir(after))
  {
    if IsDirAt(start, p) {
      SetWhatIsThere(start, p);
    }
    SetAndGet(start, p, Was(start, p), Was(start, p));
    EndsAreVisible(Was(start, p), Dir(after));
  }

  /** What a reader sees of a subdirectory being overlaid, seen from above. */
  lemma NestedShows(states: seq<Tree>, start: Tree, p: Path, d: map<string, Tree>, before: map<string, Tree>,
                    after: map<string, Tree>, done: set<string>, n: string, e: map<string, Tree>)
    requires HasParent(start, p) && Midway(d, before, after, done)
    requires n in after && after[n].Dir? && n !in done
    requires e == if n in d && d[n].File? then d - {n} else d
    requires var t := SetAt(start, p, Dir(e)); AllShow(states, t, p + [n], Was(t, p + [n]), after[n])
    ensures AllShow(states, start, p, Dir(before), Dir(after))
  {
    forall i | 0 <= i < |states| ensures Shows(states[i], start, p, Dir(before), Dir(after)) {
      var t := SetAt(start, p, Dir(e));
      var x := GetAt(states[i], p + [n]).value;
      EntryOf(start, p, e, n, x);
      assert states[i] == SetAt(start, p, Dir(e[n := x]));
      MidwayShows(start, p, d, before, after, done, n, e[n := x]);
    }
  }

  /** The states that a copy goes through. */
  lemma CopySteps(start: Tree, p: Path, d: map<string, Tree>, before: map<string, Tree>, after: map<string, Tree>,
                  done: set<string>, n: string, tmp: string)
    requires HasParent(start, p) && Midway(d, before, after, done)
    requires n in after && after[n].File? && n !in done && tmp !in d && tmp !in after
    ensures var written := d[tmp := after[n]];
            var cleared := if n in written && written[n].Dir? then written - {n} else written;
            && Shows(SetAt(start, p, Dir(written)), start, p, Dir(before), Dir(after))
            && Shows(SetAt(start, p, Dir(cleared)), start, p, Dir(before), Dir(after))
            && (cleared - {tmp})[n := after[n]] == d[n := after[n]]
            && Shows(SetAt(start, p, Dir(d[n := after[n]])), start, p, Dir(before), Dir(after))
  {
    var written := d[tmp := after[n]];
    CopyShows(start, p, d, before, after, done, n, written);
    CopyShows(start, p, d, before, after, done, n, if n in d && d[n].Dir? then written - {n} else written);
    CopyShows(start, p, d, before, after, done, n, d[n := after[n]]);
  }

  /** On the way to a new file, its directory holds the old one, the new one, or a directory's gap. */
  lemma CopyShows(start: Tree, p: Path, d: map<string, Tree>, before: map<string, Tree>, after: map<string, Tree>,
                  done: set<string>, n: string, e: map<string, Tree>)
    requires HasParent(start, p) && Midway(d, before, after, done)
    requires n in after && after[n].File? && n !in done
    requires forall m :: m in d && m in after && m != n ==> m in e && e[m] == d[m]
    requires n in d && d[n].File? ==> n in e && e[n] in {d[n], after[n]}
    ensures Shows(SetAt(start, p, Dir(e)), start, p, Dir(before), Dir(after))
  {
    if n in before {
      EndsAreVisible(before[n], after[n]);
    }
    MidwayShows(start, p, d, before, after, done, n, e);
  }

  /** At every step a path that was and will be a file is a file, with its old or its new content; likewise a
      directory. */
  lemma {:induction false} ReaderFinds(shown: Tree, before: Tree, after: Tree, q: Path)
    requires Visible(shown, before, after)
    ensures IsFileAt(before, q) && IsFileAt(after, q) ==> GetAt(shown, q) in {GetAt(before, q), GetAt(after, q)}
    ensures IsDirAt(before, q) && IsDirAt(after, q) ==> IsDirAt(shown, q)
  {
    if q != [] && GetAt(before, q).Some? && GetAt(after, q).Some? {
      var n := q[0];
      assert |q| == 1 ==> q[1..] == [];
      assert GetAt(before, q) == GetAt(before.entries[n], q[1..]) && GetAt(after, q) == GetAt(after.entries[n], q[1..]);
      if Stays(n, before.entries, after.entries) {
        ReaderFinds(shown.entries[n], before.entries[n], after.entries[n], q[1..]);
      }
    }
  }
}
