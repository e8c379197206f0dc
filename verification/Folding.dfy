/** The collision index of archive names: no two entries may fold to the same file, no entry to an implied directory,
    and every implied directory has one spelling. The fold (lower case and NFC) is any function on strings. */
module Folding {
  import opened Options

  /** Folded files, and each folded implied directory with its first spelling. */
  datatype Index = Index(files: set<string>, dirs: map<string, string>)

  /** The implied directories of `name[..n]`: the prefix before each slash, in order. */
  function DirsBelow(name: string, n: nat): (dirs: seq<string>)
    requires n <= |name|
  {
    if n == 0 then []
    else if name[n - 1] == '/' then DirsBelow(name, n - 1) + [name[..n - 1]]
    else DirsBelow(name, n - 1)
  }

  function Dirs(name: string): seq<string> {
    DirsBelow(name, |name|)
  }

  lemma {:induction false} DirsArePrefixes(name: string, n: nat, dir: string)
    requires n <= |name|
    ensures dir in DirsBelow(name, n) <==> exists i :: 0 <= i < n && name[i] == '/' && dir == name[..i]
  {
    if n > 0 {
      DirsArePrefixes(name, n - 1, dir);
    }
  }

  function AddDir(index: Index, dir: string, fold: string -> string): Option<Index> {
    var key := fold(dir);
    if key in index.files then None
    else if key !in index.dirs then Some(index.(dirs := index.dirs[key := dir]))
    else if index.dirs[key] != dir then None
    else Some(index)
  }

  function AddDirs(index: Index, dirs: seq<string>, fold: string -> string): Option<Index> {
    if dirs == [] then Some(index)
    else
      match AddDirs(index, dirs[..|dirs| - 1], fold)
      case None => None
      case Some(next) => AddDir(next, dirs[|dirs| - 1], fold)
  }

  function InsertName(index: Index, name: string, fold: string -> string): Option<Index> {
    var key := fold(name);
    if key in index.dirs || key in index.files then None
    else AddDirs(index.(files := index.files + {key}), Dirs(name), fold)
  }

  const EMPTY := Index({}, map[])

  /** Inserting the names one after another, from the empty index. */
  function InsertAll(names: seq<string>, fold: string -> string): Option<Index> {
    if names == [] then Some(EMPTY)
    else
      match InsertAll(names[..|names| - 1], fold)
      case None => None
      case Some(index) => InsertName(index, names[|names| - 1], fold)
  }

  class Folded {
    var files: set<string>
    var dirs: map<string, string>

    function Value(): Index
      reads this
    {
      Index(files, dirs)
    }

    constructor ()
      ensures Value() == EMPTY
    {
      files, dirs := {}, map[];
    }

    /** A refused name leaves the index partly extended; every caller stops at the first refusal. */
    method Insert(name: string, fold: string -> string) returns (ok: bool)
      modifies this
      ensures InsertName(old(Value()), name, fold) == if ok then Some(Value()) else None
    {
      hide AddDirs, DirsBelow;
      var key := fold(name);
      if key in dirs || key in files {
        return false;
      }
      files := files + {key};
      var start := Value();
      var i := 0;
      NoDirs(start, name, fold);
      while i < |name|
        invariant i <= |name|
        invariant AddDirs(start, DirsBelow(name, i), fold) == Some(Value())
      {
        OneMoreDir(start, name, i, fold);
        if name[i] == '/' {
          var dir := name[..i];
          var folded := fold(dir);
          var refused := folded in files || (folded in dirs && dirs[folded] != dir);
          if refused {
            AddDirsFails(start, name, i + 1, fold);
            return false;
          }
          if folded !in dirs {
            dirs := dirs[folded := dir];
          }
        }
        i := i + 1;
      }
      return true;
    }
  }

  lemma NoDirs(index: Index, name: string, fold: string -> string)
    ensures AddDirs(index, DirsBelow(name, 0), fold) == Some(index)
  {
  }

  lemma OneMoreDir(index: Index, name: string, i: nat, fold: string -> string)
    requires i < |name|
    ensures AddDirs(index, DirsBelow(name, i + 1), fold)
            == if name[i] != '/' then AddDirs(index, DirsBelow(name, i), fold)
               else
                 match AddDirs(index, DirsBelow(name, i), fold) {
                   case None => None
                   case Some(next) => AddDir(next, name[..i], fold)
                 }
  {
    var passed := DirsBelow(name, i);
    assert (passed + [name[..i]])[..|passed|] == passed;
  }

  lemma {:induction false} AddDirsFails(index: Index, name: string, n: nat, fold: string -> string)
    requires n <= |name| && AddDirs(index, DirsBelow(name, n), fold).None?
    ensures AddDirs(index, Dirs(name), fold).None?
    decreases |name| - n
  {
    if n < |name| {
      OneMoreDir(index, name, n, fold);
      AddDirsFails(index, name, n + 1, fold);
    }
  }

  // ----- the order-free meaning -----------------------------------------------------------------------------------

  ghost function OwnDirs(name: string): set<string> {
    set dir | dir in Dirs(name)
  }

  ghost function DirSet(names: seq<string>): set<string> {
    if names == [] then {} else DirSet(names[..|names| - 1]) + OwnDirs(names[|names| - 1])
  }

  lemma {:induction false} DirSetMembers(names: seq<string>)
    ensures forall dir :: dir in DirSet(names) <==> exists name :: name in names && dir in Dirs(name)
  {
    if names != [] {
      var init, last := names[..|names| - 1], names[|names| - 1];
      assert names == init + [last];
      DirSetMembers(init);
    }
  }

  ghost function FileSet(names: seq<string>, fold: string -> string): set<string> {
    if names == [] then {} else FileSet(names[..|names| - 1], fold) + {fold(names[|names| - 1])}
  }

  lemma {:induction false} FileSetMembers(names: seq<string>, fold: string -> string)
    ensures forall key :: key in FileSet(names, fold) <==> exists i :: 0 <= i < |names| && fold(names[i]) == key
  {
    if names != [] {
      var init, last := names[..|names| - 1], names[|names| - 1];
      assert names == init + [last];
      FileSetMembers(init, fold);
      forall key | key in FileSet(names, fold) ensures exists i :: 0 <= i < |names| && fold(names[i]) == key {
        if key in FileSet(init, fold) {
          var i :| 0 <= i < |init| && fold(init[i]) == key;
          assert fold(names[i]) == key;
        } else {
          assert fold(names[|init|]) == key;
        }
      }
      forall i | 0 <= i < |names| ensures fold(names[i]) in FileSet(names, fold) {
        if i < |init| { assert init[i] == names[i]; }
      }
    }
  }

  /** No two files fold equal, no file folds equal to an implied directory (its own included), and no two spellings of
      an implied directory fold equal. */
  ghost predicate Compatible(names: seq<string>, fold: string -> string) {
    && (forall i, j :: 0 <= i < j < |names| ==> fold(names[i]) != fold(names[j]))
    && (forall i, dir :: 0 <= i < |names| && dir in DirSet(names) ==> fold(names[i]) != fold(dir))
    && (forall d, e :: d in DirSet(names) && e in DirSet(names) && fold(d) == fold(e) ==> d == e)
  }

  /** The map holds exactly the directories of `spellings`, each under its fold. */
  ghost predicate Represents(dirs: map<string, string>, spellings: set<string>, fold: string -> string) {
    && (forall d :: d in spellings ==> fold(d) in dirs && dirs[fold(d)] == d)
    && (forall key :: key in dirs ==> dirs[key] in spellings && fold(dirs[key]) == key)
  }

  ghost predicate DirsFit(index: Index, spellings: set<string>, dirs: seq<string>, fold: string -> string) {
    && (forall d :: d in dirs ==> fold(d) !in index.files)
    && (forall d, e :: d in dirs && (e in spellings || e in dirs) && fold(d) == fold(e) ==> d == e)
  }

  lemma AddDirMeaning(index: Index, spellings: set<string>, dir: string, fold: string -> string)
    requires Represents(index.dirs, spellings, fold)
    ensures var r := AddDir(index, dir, fold);
            && (r.Some? <==>
                  fold(dir) !in index.files && forall e :: e in spellings && fold(e) == fold(dir) ==> e == dir)
            && (r.Some? ==> r.value.files == index.files && Represents(r.value.dirs, spellings + {dir}, fold))
  {
  }

  ghost function SetOf(dirs: seq<string>): set<string> {
    set d | d in dirs
  }

  lemma SetOfSnoc(spellings: set<string>, init: seq<string>, last: string)
    ensures spellings + SetOf(init + [last]) == spellings + SetOf(init) + {last}
    ensures spellings + SetOf([]) == spellings
  {
  }

  /** One more directory fits exactly when it fits beside those before it. */
  lemma DirsFitSnoc(index: Index, spellings: set<string>, init: seq<string>, last: string, fold: string -> string)
    ensures DirsFit(index, spellings, init + [last], fold) <==>
              && DirsFit(index, spellings, init, fold)
              && fold(last) !in index.files
              && forall e :: e in spellings + SetOf(init) && fold(e) == fold(last) ==> e == last
  {
    var dirs := init + [last];
    assert forall d :: d in dirs <==> d in init || d == last;
    if DirsFit(index, spellings, dirs, fold) {
      forall e | e in spellings + SetOf(init) && fold(e) == fold(last) ensures e == last {
        assert last in dirs && (e in spellings || e in dirs);
      }
    }
  }

  lemma {:induction false} AddDirsMeaning(index: Index, spellings: set<string>, dirs: seq<string>,
                                          fold: string -> string)
    requires Represents(index.dirs, spellings, fold)
    ensures var r := AddDirs(index, dirs, fold);
            && (r.Some? <==> DirsFit(index, spellings, dirs, fold))
            && (r.Some? ==> r.value.files == index.files && Represents(r.value.dirs, spellings + SetOf(dirs), fold))
  {
    hide DirsFit, Represents, AddDir, SetOf;
    if dirs == [] {
      NoDirsFit(index, spellings, fold);
      SetOfSnoc(spellings, [], []);
    } else {
      var init, last := dirs[..|dirs| - 1], dirs[|dirs| - 1];
      assert dirs == init + [last];
      AddDirsMeaning(index, spellings, init, fold);
      SetOfSnoc(spellings, init, last);
      DirsFitSnoc(index, spellings, init, last, fold);
      var r := AddDirs(index, init, fold);
      if r.Some? {
        AddDirMeaning(r.value, spellings + SetOf(init), last, fold);
      }
    }
  }

  lemma NoDirsFit(index: Index, spellings: set<string>, fold: string -> string)
    ensures DirsFit(index, spellings, [], fold)
  {
  }

  /** Acceptance of a sequence of names, and the index it leaves. */
  lemma {:induction false} AcceptedIffCompatible(names: seq<string>, fold: string -> string)
    ensures InsertAll(names, fold).Some? <==> Compatible(names, fold)
    ensures var r := InsertAll(names, fold);
            r.Some? ==> r.value.files == FileSet(names, fold) && Represents(r.value.dirs, DirSet(names), fold)
  {
    if names != [] {
      var init, last := names[..|names| - 1], names[|names| - 1];
      AcceptedIffCompatible(init, fold);
      var r := InsertAll(init, fold);
      if r.Some? {
        AddDirsMeaning(r.value.(files := r.value.files + {fold(last)}), DirSet(init), Dirs(last), fold);
        LastFits(names, r.value, fold);
      } else if Compatible(names, fold) {
        SubCompatible(names, fold);
        assert false;
      }
    }
  }

  lemma SubCompatible(names: seq<string>, fold: string -> string)
    requires names != [] && Compatible(names, fold)
    ensures Compatible(names[..|names| - 1], fold)
  {
    var init := names[..|names| - 1];
    assert forall i :: 0 <= i < |init| ==> init[i] == names[i];
    assert DirSet(init) <= DirSet(names);
  }

  /** The index fits the names it was built from. */
  ghost predicate IndexOf(index: Index, names: seq<string>, fold: string -> string) {
    index.files == FileSet(names, fold) && Represents(index.dirs, DirSet(names), fold)
  }

  ghost predicate NameFits(index: Index, names: seq<string>, name: string, fold: string -> string) {
    && fold(name) !in index.dirs && fold(name) !in index.files
    && DirsFit(index.(files := index.files + {fold(name)}), DirSet(names), Dirs(name), fold)
  }

  lemma CompatibleFits(names: seq<string>, index: Index, fold: string -> string)
    requires names != [] && IndexOf(index, names[..|names| - 1], fold) && Compatible(names, fold)
    ensures NameFits(index, names[..|names| - 1], names[|names| - 1], fold)
  {
    var init, last := names[..|names| - 1], names[|names| - 1];
    FileSetMembers(init, fold);
    assert forall i :: 0 <= i < |init| ==> init[i] == names[i];
    assert names[|names| - 1] == last;
  }

  lemma FitsCompatible(names: seq<string>, index: Index, fold: string -> string)
    requires names != [] && IndexOf(index, names[..|names| - 1], fold) && Compatible(names[..|names| - 1], fold)
    requires NameFits(index, names[..|names| - 1], names[|names| - 1], fold)
    ensures Compatible(names, fold)
  {
    var init, last := names[..|names| - 1], names[|names| - 1];
    FileSetMembers(init, fold);
    assert forall i :: 0 <= i < |init| ==> init[i] == names[i];
  }

  lemma LastFits(names: seq<string>, index: Index, fold: string -> string)
    requires names != [] && IndexOf(index, names[..|names| - 1], fold) && Compatible(names[..|names| - 1], fold)
    ensures Compatible(names, fold) <==> NameFits(index, names[..|names| - 1], names[|names| - 1], fold)
  {
    hide Compatible, NameFits, IndexOf;
    if Compatible(names, fold) { CompatibleFits(names, index, fold); }
    if NameFits(index, names[..|names| - 1], names[|names| - 1], fold) { FitsCompatible(names, index, fold); }
  }

  /** The verdict does not depend on the order of the entries. */
  lemma OrderIsIrrelevant(names: seq<string>, others: seq<string>, fold: string -> string)
    requires multiset(names) == multiset(others)
    ensures InsertAll(names, fold).Some? <==> InsertAll(others, fold).Some?
  {
    AcceptedIffCompatible(names, fold);
    AcceptedIffCompatible(others, fold);
    if Compatible(names, fold) { CompatibleIsSymmetric(names, others, fold); }
    if Compatible(others, fold) { CompatibleIsSymmetric(others, names, fold); }
  }

  lemma SameElements(names: seq<string>, others: seq<string>)
    requires multiset(names) == multiset(others)
    ensures forall name :: name in names ==> name in others
  {
    forall name | name in names ensures name in others {
      assert name in multiset(names);
      assert name in multiset(others);
    }
  }

  lemma CompatibleIsSymmetric(names: seq<string>, others: seq<string>, fold: string -> string)
    requires multiset(names) == multiset(others) && Compatible(names, fold)
    ensures Compatible(others, fold)
  {
    SameElements(names, others);
    SameElements(others, names);
    SameDirs(names, others);
    forall i, j | 0 <= i < j < |others| ensures fold(others[i]) != fold(others[j]) {
      DistinctStays(names, others, fold, i, j);
    }
    forall i, dir | 0 <= i < |others| && dir in DirSet(others) ensures fold(others[i]) != fold(dir) {
      assert others[i] in others && others[i] in names;
      var k :| 0 <= k < |names| && names[k] == others[i];
    }
  }

  lemma SameDirs(names: seq<string>, others: seq<string>)
    requires forall name :: name in names <==> name in others
    ensures DirSet(names) == DirSet(others)
  {
    DirSetMembers(names);
    DirSetMembers(others);
    forall dir ensures dir in DirSet(names) <==> dir in DirSet(others) {
      if dir in DirSet(names) {
        var name :| name in names && dir in Dirs(name);
        assert name in others;
      }
      if dir in DirSet(others) {
        var name :| name in others && dir in Dirs(name);
        assert name in names;
      }
    }
  }

  lemma DistinctStays(names: seq<string>, others: seq<string>, fold: string -> string, i: nat, j: nat)
    requires multiset(names) == multiset(others) && i < j < |others|
    requires forall k, l :: 0 <= k < l < |names| ==> fold(names[k]) != fold(names[l])
    ensures fold(others[i]) != fold(others[j])
  {
    SameElements(others, names);
    assert others[i] in others && others[j] in others;
    assert others[i] in names && others[j] in names;
    var k :| 0 <= k < |names| && names[k] == others[i];
    var l :| 0 <= l < |names| && names[l] == others[j];
    if k == l {
      TwiceIn(others, i, j);
      OnceIn(names, others[i], fold);
    } else if k < l {
      assert fold(names[k]) != fold(names[l]);
    } else {
      assert fold(names[l]) != fold(names[k]);
    }
  }

  lemma TwiceIn(names: seq<string>, i: nat, j: nat)
    requires i < j < |names| && names[i] == names[j]
    ensures multiset(names)[names[i]] >= 2
  {
    assert names == names[..j] + names[j..];
    assert names[i] in names[..j] && names[j..][0] == names[j];
    assert multiset(names) == multiset(names[..j]) + multiset(names[j..]);
  }

  lemma {:induction false} OnceIn(names: seq<string>, name: string, fold: string -> string)
    requires forall i, j :: 0 <= i < j < |names| ==> fold(names[i]) != fold(names[j])
    ensures multiset(names)[name] <= 1
  {
    if names != [] {
      var init, last := names[..|names| - 1], names[|names| - 1];
      assert names == init + [last];
      OnceIn(init, name, fold);
      assert forall i :: 0 <= i < |init| ==> fold(init[i]) != fold(last);
    }
  }
}
