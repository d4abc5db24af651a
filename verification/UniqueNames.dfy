/** Giving every file of an NZB a name of its own. */
module UniqueNames {
  import opened Common

  // ---- Decimal numbers ----

  function Digit(d: nat): char
    requires d < 10
  {
    '0' + d as char
  }

  function Decimal(n: nat): (s: string)
    ensures s != [] && (n < 10 <==> |s| == 1)
  {
    if n < 10 then [Digit(n)] else Decimal(n / 10) + [Digit(n % 10)]
  }

  /** The number that decimal digits stand for. */
  ghost function Value(s: string): nat
    requires forall i :: 0 <= i < |s| ==> '0' <= s[i] <= '9'
  {
    if s == [] then 0 else 10 * Value(s[..|s| - 1]) + (s[|s| - 1] as nat - '0' as nat)
  }

  lemma {:induction false} DecimalValue(n: nat)
    ensures (forall i :: 0 <= i < |Decimal(n)| ==> '0' <= Decimal(n)[i] <= '9') && Value(Decimal(n)) == n
    ensures n > 0 ==> Decimal(n)[0] != '0'
  {
    if n < 10 {
      assert [Digit(n)][..0] == [];
    } else {
      DecimalValue(n / 10);
      assert Decimal(n)[..|Decimal(n)| - 1] == Decimal(n / 10);
      assert n == 10 * (n / 10) + n % 10;
    }
  }

  lemma {:induction false} DecimalInjective(m: nat, n: nat)
    requires Decimal(m) == Decimal(n)
    ensures m == n
    decreases m
  {
    var s, t := Decimal(m), Decimal(n);
    assert s[|s| - 1] == Digit(m % 10) && t[|t| - 1] == Digit(n % 10);
    assert m % 10 == n % 10;
    if m >= 10 && n >= 10 {
      assert s[..|s| - 1] == Decimal(m / 10) && t[..|t| - 1] == Decimal(n / 10);
      DecimalInjective(m / 10, n / 10);
    }
  }

  /** The name with a suffix. */
  function Suffixed(name: string, suffix: nat): string {
    name + "_" + Decimal(suffix)
  }

  lemma SuffixedInjective(name: string, m: nat, n: nat)
    ensures Suffixed(name, m) == Suffixed(name, n) <==> m == n
  {
    assert Suffixed(name, m)[|name| + 1..] == Decimal(m);
    assert Suffixed(name, n)[|name| + 1..] == Decimal(n);
    if Decimal(m) == Decimal(n) {
      DecimalInjective(m, n);
    }
  }

  // ---- The search for a free suffix ----

  /** The suffixed names from one suffix up to another. */
  ghost function Tried(name: string, from: nat, end: nat): (s: set<string>)
  {
    set k: nat | from <= k < end :: Suffixed(name, k)
  }

  /** As many as there are suffixes, since they are all different. */
  lemma {:induction false} TriedSize(name: string, from: nat, end: nat)
    requires from <= end
    ensures |Tried(name, from, end)| == end - from
    decreases end
  {
    hide Suffixed;
    if from == end {
      assert Tried(name, from, end) == {};
    } else {
      TriedSize(name, from, end - 1);
      assert Tried(name, from, end) == Tried(name, from, end - 1) + {Suffixed(name, end - 1)};
      forall k: nat | from <= k < end - 1
        ensures Suffixed(name, k) != Suffixed(name, end - 1)
      {
        SuffixedInjective(name, k, end - 1);
      }
    }
  }

  lemma {:induction false} SubsetSize(a: set<string>, b: set<string>)
    requires a <= b
    ensures |a| <= |b|
  {
    assert b == a + (b - a);
  }

  /** The first suffix whose name is not in use; only finitely many can be. */
  method FreeSuffix(used: map<string, nat>, name: string, from: nat) returns (suffix: nat)
    ensures suffix >= from && Suffixed(name, suffix) !in used
    ensures forall k :: from <= k < suffix ==> Suffixed(name, k) in used
  {
    suffix := from;
    TriedSize(name, from, suffix);
    SubsetSize(Tried(name, from, suffix), used.Keys);
    while Suffixed(name, suffix) in used
      invariant from <= suffix
      invariant forall k :: from <= k < suffix ==> Suffixed(name, k) in used
      invariant suffix - from <= |used.Keys|
      decreases |used.Keys| - (suffix - from)
    {
      suffix := suffix + 1;
      TriedSize(name, from, suffix);
      SubsetSize(Tried(name, from, suffix), used.Keys);
    }
  }

  // ---- Renaming ----

  type Name = Option<string>

  predicate Named(n: Name) {
    n.Some? && n.value != ""
  }

  /** The nonempty names are pairwise distinct. */
  predicate AllDistinct(names: seq<Name>) {
    forall i, j :: 0 <= i < j < |names| && Named(names[i]) && Named(names[j]) ==> names[i] != names[j]
  }

  /** The name is taken by an earlier file. */
  predicate Taken(names: seq<Name>, i: nat, name: Name)
    requires i <= |names|
  {
    exists j :: 0 <= j < i && names[j] == name
  }

  ghost function Numbered(name: string, k: nat): Name {
    Some(name + "_" + Decimal(k))
  }

  /** From two on, k is the first number that gives a name no earlier file has. */
  ghost predicate FirstFree(names: seq<Name>, i: nat, name: string, k: nat)
    requires i <= |names|
  {
    k >= 2 && !Taken(names, i, Numbered(name, k)) && forall j :: 2 <= j < k ==> Taken(names, i, Numbered(name, j))
  }

  /** A file keeps its name unless an earlier one has it by then; then it gets the first number that is free. */
  ghost predicate RenamedAt(before: seq<Name>, after: seq<Name>, i: nat)
    requires |after| == |before| && i < |before|
  {
    if Named(before[i]) && Taken(after, i, before[i])
    then exists k: nat :: FirstFree(after, i, before[i].value, k) && after[i] == Numbered(before[i].value, k)
    else after[i] == before[i]
  }

  /** The names in use are those of the files done, and up to its count every number of a name is in use. */
  ghost predicate InUse(used: map<string, nat>, names: seq<Name>, i: nat)
    requires i <= |names|
  {
    && (forall name :: name in used ==> used[name] >= 1)
    && (forall name, k :: name in used && 2 <= k <= used[name] ==> Suffixed(name, k) in used)
    && forall name :: name in used <==> name != "" && Taken(names, i, Some(name))
  }

  lemma KeepName(used: map<string, nat>, names: seq<Name>, i: nat, name: string)
    requires i < |names| && names[i] == Some(name) && name != ""
    requires InUse(used, names, i) && AllDistinct(names[..i]) && name !in used
    ensures InUse(used[name := 1], names, i + 1) && AllDistinct(names[..i + 1])
  {
    hide Suffixed;
    forall other
      ensures other in used[name := 1] <==> other != "" && Taken(names, i + 1, Some(other))
    {
      if other == name {
        assert names[i] == Some(other);
      }
    }
    assert !Taken(names, i, Some(name));
    assert forall j :: 0 <= j < i ==> names[j] != Some(name);
  }

  lemma SkipName(used: map<string, nat>, names: seq<Name>, i: nat)
    requires i < |names| && !Named(names[i])
    requires InUse(used, names, i) && AllDistinct(names[..i])
    ensures InUse(used, names, i + 1) && AllDistinct(names[..i + 1])
  {
  }

  /** Gives the i-th file its name and records it. */
  method NameFile(files: array<Name>, i: nat, used: map<string, nat>) returns (next: map<string, nat>)
    requires i < files.Length && InUse(used, files[..], i) && AllDistinct(files[..i])
    modifies files
    ensures InUse(next, files[..], i + 1) && AllDistinct(files[..i + 1])
    ensures forall j :: 0 <= j < files.Length && j != i ==> files[j] == old(files[j])
    ensures if Named(old(files[i])) && Taken(old(files[..]), i, old(files[i]))
            then exists k: nat :: FirstFree(old(files[..]), i, old(files[i]).value, k) && files[i] == Numbered(old(files[i]).value, k)
            else files[i] == old(files[i])
  {
    hide AllDistinct, InUse, Suffixed, FirstFree, Numbered;
    next := used;
    ghost var names := files[..];
    if files[i].None? || files[i].value == "" {
      SkipName(used, names, i);
      return;
    }
    var filename := files[i].value;
    UsedMeansTaken(used, names, i, filename);
    if filename !in used {
      KeepName(used, names, i, filename);
      next := used[filename := 1];
      return;
    }
    var suffix := FreeSuffix(used, filename, used[filename] + 1);
    FirstUnused(used, names, i, filename, suffix);
    var candidate := Suffixed(filename, suffix);
    files[i] := Some(candidate);
    assert files[..i] == names[..i];
    SameBefore(used, names, files[..], i);
    SuffixedNonempty(filename, suffix);
    KeepName(used, files[..], i, candidate);
    next := used[candidate := 1];
    Recount(next, files[..], i + 1, filename, suffix);
    next := next[filename := suffix];
  }

  method EnsureUniqueFilenames(files: array<Name>)
    modifies files
    ensures AllDistinct(files[..])
    ensures forall i :: 0 <= i < files.Length ==> RenamedAt(old(files[..]), files[..], i)
    ensures forall i :: 0 <= i < files.Length && (old(files[i]) == None || old(files[i]) == Some("")) ==> files[i] == old(files[i])
  {
    hide AllDistinct, Suffixed, RenamedAt;
    var used: map<string, nat> := map[];
    ghost var before := files[..];
    NothingUsed(files[..]);
    for i := 0 to files.Length
      invariant forall j :: i <= j < files.Length ==> files[j] == before[j]
      invariant InUse(used, files[..], i) && AllDistinct(files[..i])
      invariant forall j :: 0 <= j < i ==> RenamedAt(before, files[..], j)
    {
      hide InUse;
      ghost var names := files[..];
      used := NameFile(files, i, used);
      forall j | 0 <= j <= i
        ensures RenamedAt(before, files[..], j)
      {
        StillRenamed(before, names, files[..], i, j);
      }
    }
    assert files[..files.Length] == files[..];
    forall i | 0 <= i < files.Length
      ensures before[i] == None || before[i] == Some("") ==> files[i] == before[i]
    {
      NamelessKeeps(before, files[..], i);
    }
  }

  lemma NamelessKeeps(before: seq<Name>, after: seq<Name>, i: nat)
    requires |after| == |before| && i < |before| && RenamedAt(before, after, i)
    ensures before[i] == None || before[i] == Some("") ==> after[i] == before[i]
  {
  }

  lemma NothingUsed(names: seq<Name>)
    ensures InUse(map[], names, 0) && AllDistinct(names[..0])
  {
  }

  lemma UsedMeansTaken(used: map<string, nat>, names: seq<Name>, i: nat, name: string)
    requires i <= |names| && InUse(used, names, i) && name != ""
    ensures name in used <==> Taken(names, i, Some(name))
    ensures name in used ==> used[name] >= 1
  {
  }

  lemma SuffixedNonempty(name: string, suffix: nat)
    ensures Suffixed(name, suffix) != ""
  {
  }

  /** The counter of a name in use may go up to numbers in use. */
  lemma Recount(used: map<string, nat>, names: seq<Name>, i: nat, name: string, count: nat)
    requires i <= |names| && InUse(used, names, i) && name in used && count >= 1
    requires forall k :: 2 <= k <= count ==> Suffixed(name, k) in used
    ensures InUse(used[name := count], names, i)
  {
    hide Suffixed;
  }

  /** The first number behind the count that is not in use is the first free one. */
  lemma FirstUnused(used: map<string, nat>, names: seq<Name>, i: nat, name: string, suffix: nat)
    requires i <= |names| && InUse(used, names, i) && name in used && suffix > used[name]
    requires Suffixed(name, suffix) !in used && forall k :: used[name] < k < suffix ==> Suffixed(name, k) in used
    ensures FirstFree(names, i, name, suffix) && Numbered(name, suffix) == Some(Suffixed(name, suffix))
    ensures forall k :: 2 <= k < suffix ==> Suffixed(name, k) in used
  {
    forall k | 2 <= k <= suffix
      ensures Numbered(name, k) == Some(Suffixed(name, k)) && Suffixed(name, k) != ""
    {
    }
    hide Suffixed, Numbered, Taken;
  }

  /** Naming the i-th file settles it and leaves the earlier ones settled. */
  lemma StillRenamed(before: seq<Name>, names: seq<Name>, after: seq<Name>, i: nat, j: nat)
    requires j <= i < |before| == |names| == |after| && names[i] == before[i]
    requires forall l :: 0 <= l < |after| && l != i ==> after[l] == names[l]
    requires if Named(names[i]) && Taken(names, i, names[i])
             then exists k: nat :: FirstFree(names, i, names[i].value, k) && after[i] == Numbered(names[i].value, k)
             else after[i] == names[i]
    requires j < i ==> RenamedAt(before, names, j)
    ensures RenamedAt(before, after, j)
  {
    forall name
      ensures Taken(after, j, name) <==> Taken(names, j, name)
    {
    }
    SameFree(names, after, j);
    hide Numbered, FirstFree, Taken;
  }

  lemma SameFree(names: seq<Name>, after: seq<Name>, j: nat)
    requires j <= |names| == |after| && forall name :: Taken(after, j, name) <==> Taken(names, j, name)
    ensures forall name: string, k: nat :: FirstFree(after, j, name, k) <==> FirstFree(names, j, name, k)
  {
    hide Numbered, Taken;
  }

  lemma SameBefore(used: map<string, nat>, names: seq<Name>, after: seq<Name>, i: nat)
    requires i < |names| == |after| && after[..i] == names[..i] && InUse(used, names, i)
    ensures InUse(used, after, i)
    ensures forall name :: Taken(names, i, name) <==> Taken(after, i, name)
  {
    assert forall j :: 0 <= j < i ==> after[j] == after[..i][j] == names[j];
  }
}
