/** How a stage request and the manager's answer become mount options. */
module MountOptions {

  const DEFAULT_FS_TYPE := "ext4"
  const XFS := "xfs"

  /** lancet `AppendIfAbsent`. */
  function AppendIfAbsent(s: seq<string>, x: string): seq<string> {
    if x in s then s else s + [x]
  }

  /** lancet `Union`: both slices in order, keeping first occurrences. */
  function Union(a: seq<string>, b: seq<string>): seq<string> {
    Fold(Fold([], a), b)
  }

  function Fold(acc: seq<string>, s: seq<string>): seq<string> {
    if s == [] then acc
    else AppendIfAbsent(Fold(acc, s[..|s| - 1]), s[|s| - 1])
  }

  /** lancet `Difference`: what is in `a` but not in `b`, in order. */
  function Difference(a: seq<string>, b: seq<string>): seq<string> {
    if a == [] then []
    else Difference(a[..|a| - 1], b) + if a[|a| - 1] in b then [] else [a[|a| - 1]]
  }

  /** The request wins over the manager, and both over the default. */
  function ResolveFsType(requested: string, offered: string): string {
    if requested != "" then requested else if offered != "" then offered else DEFAULT_FS_TYPE
  }

  /** The options before the manager's are merged in. */
  function BaseOptions(flags: seq<string>, fsType: string, readerOnly: bool): seq<string> {
    var o := Union([], flags);
    var o := if fsType == XFS then AppendIfAbsent(o, "nouuid") else o;
    if readerOnly then AppendIfAbsent(o, "ro") else o
  }

  /** All options of a stage in the order they are considered, before duplicates go. */
  function Considered(flags: seq<string>, fsType: string, readerOnly: bool, offered: seq<string>): seq<string> {
    flags + (if fsType == XFS then ["nouuid"] else []) + (if readerOnly then ["ro"] else []) + offered
  }

  function Merged(flags: seq<string>, fsType: string, readerOnly: bool, offered: seq<string>): seq<string> {
    Union(BaseOptions(flags, fsType, readerOnly), offered)
  }

  /** Where `x` first occurs in `s`. */
  function FirstIndex(s: seq<string>, x: string): nat
    requires x in s
  {
    if s[0] == x then 0 else 1 + FirstIndex(s[1..], x)
  }

  ghost predicate NoDuplicates(s: seq<string>) {
    forall i, j | 0 <= i < j < |s| :: s[i] != s[j]
  }

  /** `r` holds each element of `s` once, ordered by first occurrence. */
  ghost predicate FirstOccurrences(r: seq<string>, s: seq<string>) {
    && NoDuplicates(r)
    && (forall x :: x in r <==> x in s)
    && forall i, j | 0 <= i < j < |r| :: FirstIndex(s, r[i]) < FirstIndex(s, r[j])
  }

  lemma {:induction false} FirstIndexIs(s: seq<string>, x: string)
    requires x in s
    ensures FirstIndex(s, x) < |s| && s[FirstIndex(s, x)] == x && x !in s[..FirstIndex(s, x)]
  {
    if s[0] != x {
      FirstIndexIs(s[1..], x);
      var k := FirstIndex(s[1..], x);
      assert s[..k + 1] == [s[0]] + s[1..][..k];
    }
  }

  lemma {:induction false} FirstIndexAppend(s: seq<string>, y: string, x: string)
    requires x in s + [y]
    ensures FirstIndex(s + [y], x) == if x in s then FirstIndex(s, x) else |s|
  {
    if s == [] {
      assert s + [y] == [y];
    } else if s[0] != x {
      assert (s + [y])[1..] == s[1..] + [y];
      FirstIndexAppend(s[1..], y, x);
    }
  }

  /** Adding a slice to options that already keep the first occurrences of `done`. */
  lemma {:induction false} FoldKeepsFirst(acc: seq<string>, done: seq<string>, s: seq<string>)
    requires FirstOccurrences(acc, done)
    ensures FirstOccurrences(Fold(acc, s), done + s)
  {
    if s == [] {
      assert done + s == done;
    } else {
      var init, last := s[..|s| - 1], s[|s| - 1];
      FoldKeepsFirst(acc, done, init);
      assert done + s == (done + init) + [last];
      AppendKeepsFirst(Fold(acc, init), done + init, last);
    }
  }

  lemma AppendKeepsFirst(r: seq<string>, s: seq<string>, x: string)
    requires FirstOccurrences(r, s)
    ensures FirstOccurrences(AppendIfAbsent(r, x), s + [x])
  {
    var r' := AppendIfAbsent(r, x);
    forall i, j | 0 <= i < j < |r'|
      ensures FirstIndex(s + [x], r'[i]) < FirstIndex(s + [x], r'[j])
    {
      FirstIndexAppend(s, x, r'[i]);
      FirstIndexAppend(s, x, r'[j]);
      assert r[i] in s;
      FirstIndexIs(s, r[i]);
    }
  }

  /**
   * The mounter gets the request flags, `nouuid` for xfs, `ro` for reader-only modes and the manager's options: each
   * once, in order.
   */
  lemma MergedOptions(flags: seq<string>, fsType: string, readerOnly: bool, offered: seq<string>)
    ensures FirstOccurrences(Merged(flags, fsType, readerOnly, offered), Considered(flags, fsType, readerOnly, offered))
  {
    var base := BaseOptions(flags, fsType, readerOnly);
    var o := Union([], flags);
    FoldKeepsFirst([], [], flags);
    assert [] + flags == flags && Fold([], []) == [];
    var x := if fsType == XFS then ["nouuid"] else [];
    AppendKeepsFirst(o, flags, "nouuid");
    var o' := if fsType == XFS then AppendIfAbsent(o, "nouuid") else o;
    assert flags + [] == flags;
    AppendKeepsFirst(o', flags + x, "ro");
    var y := if readerOnly then ["ro"] else [];
    assert flags + x + [] == flags + x;
    FoldNothingNew(base);
    FoldKeepsFirst(base, flags + x + y, offered);
  }

  /** What is plain before the merge: the request's flags, `nouuid` for xfs and `ro` for reader-only modes. */
  lemma BaseMembers(flags: seq<string>, fsType: string, readerOnly: bool)
    ensures forall x :: x in BaseOptions(flags, fsType, readerOnly) <==>
              || x in flags || (fsType == XFS && x == "nouuid") || (readerOnly && x == "ro")
  {
    FoldKeepsFirst([], [], flags);
    assert [] + flags == flags && Fold([], []) == [];
  }

  /** Folding options without duplicates from scratch gives them back. */
  lemma {:induction false} FoldNothingNew(s: seq<string>)
    requires NoDuplicates(s)
    ensures Fold([], s) == s
  {
    if s != [] {
      FoldNothingNew(s[..|s| - 1]);
    }
  }

  lemma {:induction false} FoldPresent(acc: seq<string>, s: seq<string>)
    requires forall x | x in s :: x in acc
    ensures Fold(acc, s) == acc
  {
    if s != [] {
      FoldPresent(acc, s[..|s| - 1]);
    }
  }

  /** Feeding the result back as request flags changes nothing. */
  lemma MergedIsStable(flags: seq<string>, fsType: string, readerOnly: bool, offered: seq<string>)
    ensures var r := Merged(flags, fsType, readerOnly, offered); Merged(r, fsType, readerOnly, offered) == r
  {
    var r, all := Merged(flags, fsType, readerOnly, offered), Considered(flags, fsType, readerOnly, offered);
    MergedOptions(flags, fsType, readerOnly, offered);
    FoldNothingNew(r);
    assert Union([], r) == r;
    assert fsType == XFS ==> all[|flags|] == "nouuid";
    assert readerOnly ==> all[|flags| + if fsType == XFS then 1 else 0] == "ro";
    FoldPresent(r, offered);
  }

  /** `r` is what remains of `a`, in order: position k of `r` comes from position at[k] of `a`. */
  ghost predicate Remainder(r: seq<string>, a: seq<string>, b: seq<string>, at: seq<nat>) {
    && |at| == |r|
    && (forall k | 0 <= k < |r| :: at[k] < |a| && a[at[k]] == r[k] && r[k] !in b)
    && (forall j, k | 0 <= j < k < |r| :: at[j] < at[k])
    && forall i | 0 <= i < |a| && a[i] !in b :: i in at
  }

  /** Sensitive options are the manager's, in order, less those that are already plain before the merge. */
  lemma {:induction false} SensitiveOptions(a: seq<string>, b: seq<string>) returns (at: seq<nat>)
    ensures Remainder(Difference(a, b), a, b, at)
  {
    if a == [] {
      at := [];
    } else {
      var n := |a| - 1;
      var before := SensitiveOptions(a[..n], b);
      at := before + if a[n] in b then [] else [n];
      forall i | 0 <= i < |a| && a[i] !in b ensures i in at {
        if i < n {
          assert a[..n][i] == a[i];
        } else {
          assert at[|before|] == n;
        }
      }
    }
  }
}
