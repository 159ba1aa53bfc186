/** Reference semantics for the hot-springs arrangement count (day 12).

    A row is a sequence of cells: '#' (damaged spring), '.' (operational spring) or '?' (unknown).
    A resolution replaces every '?' by '#' or '.'.  The run lengths of a resolved row are the
    lengths of its maximal '#' runs, left to right.  The number of arrangements of a row for a
    list of group lengths is the number of resolutions whose run lengths are exactly that list.
    This module enumerates the resolutions, defines that count and proves the recurrences the
    search in module HotSprings is checked against. */
module SpringArrangements {

  /** A cell that may be resolved to '#'. */
  predicate MayBeDamaged(c: char) { c == '#' || c == '?' }

  /** A cell that may be resolved to '.'. */
  predicate MayBeOperational(c: char) { c == '.' || c == '?' }

  /** Every cell of the row is one of '#', '.', '?'. */
  predicate WellFormed(fields: seq<char>)
  {
    forall i :: 0 <= i < |fields| ==> fields[i] == '#' || fields[i] == '.' || fields[i] == '?'
  }

  /** Every group length is at least one. */
  predicate Positive(desc: seq<nat>)
  {
    forall i :: 0 <= i < |desc| ==> desc[i] >= 1
  }

  function Sum(desc: seq<nat>): nat
  {
    if desc == [] then 0 else desc[0] + Sum(desc[1..])
  }

  /** Cells needed for the groups: each group plus one separating cell between neighbours. */
  function MinSpace(desc: seq<nat>): nat
    requires desc != []
  {
    Sum(desc) + |desc| - 1
  }

  lemma MinSpaceCons(desc: seq<nat>)
    requires desc != []
    ensures MinSpace(desc) == if |desc| == 1 then desc[0] else desc[0] + 1 + MinSpace(desc[1..])
  {
    assert Sum(desc) == desc[0] + Sum(desc[1..]);
    if |desc| == 1 {
      assert desc[1..] == [];
    }
  }

  /** Cell `c` of a row may be resolved to the concrete cell `d`. */
  predicate Admits(c: char, d: char)
  {
    (d == '#' && MayBeDamaged(c)) || (d == '.' && MayBeOperational(c))
  }

  /** `r` is a resolution of `fields`. */
  ghost predicate Resolves(fields: seq<char>, r: seq<char>)
  {
    |r| == |fields| && forall i :: 0 <= i < |r| ==> Admits(fields[i], r[i])
  }

  function Prepend(c: char, rs: seq<seq<char>>): (r: seq<seq<char>>)
    ensures |r| == |rs|
    ensures forall i :: 0 <= i < |rs| ==> r[i] == [c] + rs[i]
  {
    seq(|rs|, i requires 0 <= i < |rs| => [c] + rs[i])
  }

  /** Every resolution of `fields`, each unknown cell tried as '#' before '.'. */
  function Resolutions(fields: seq<char>): seq<seq<char>>
  {
    if fields == [] then [[]]
    else
      var rest := Resolutions(fields[1..]);
      (if MayBeDamaged(fields[0]) then Prepend('#', rest) else [])
      + (if MayBeOperational(fields[0]) then Prepend('.', rest) else [])
  }

  function UnknownCount(fields: seq<char>): nat
  {
    if fields == [] then 0 else (if fields[0] == '?' then 1 else 0) + UnknownCount(fields[1..])
  }

  function Pow2(n: nat): nat
  {
    if n == 0 then 1 else 2 * Pow2(n - 1)
  }

  /** The enumeration lists exactly the resolutions of the row. */
  lemma ResolutionsExact(fields: seq<char>, r: seq<char>)
    ensures r in Resolutions(fields) <==> Resolves(fields, r)
  {
    if r in Resolutions(fields) {
      var k :| 0 <= k < |Resolutions(fields)| && Resolutions(fields)[k] == r;
      ResolutionsSound(fields, k);
    }
    if Resolves(fields, r) {
      ResolutionsComplete(fields, r);
    }
  }

  /** Position `k` of the enumeration of a non-empty row, in terms of the rest of the row. */
  lemma ResolutionAt(fields: seq<char>, k: nat)
    requires fields != [] && k < |Resolutions(fields)|
    ensures var rest := Resolutions(fields[1..]);
            var off := if MayBeDamaged(fields[0]) then |rest| else 0;
            && (k < off ==> Resolutions(fields)[k] == ['#'] + rest[k])
            && (k >= off ==> k - off < |rest| && MayBeOperational(fields[0])
                             && Resolutions(fields)[k] == ['.'] + rest[k - off])
  {
  }

  lemma {:induction false} ResolutionsSound(fields: seq<char>, k: nat)
    requires k < |Resolutions(fields)|
    ensures Resolves(fields, Resolutions(fields)[k])
    decreases |fields|
  {
    if fields != [] {
      var rest := Resolutions(fields[1..]);
      var off := if MayBeDamaged(fields[0]) then |rest| else 0;
      ResolutionAt(fields, k);
      var k' := if k < off then k else k - off;
      ResolutionsSound(fields[1..], k');
      var r := Resolutions(fields)[k];
      assert r[1..] == rest[k'];
      forall i | 0 <= i < |r| ensures Admits(fields[i], r[i]) {
        if i > 0 {
          assert r[i] == rest[k'][i - 1];
          assert fields[i] == fields[1..][i - 1];
        }
      }
    }
  }

  lemma {:induction false} ResolutionsComplete(fields: seq<char>, r: seq<char>)
    requires Resolves(fields, r)
    ensures r in Resolutions(fields)
    decreases |fields|
  {
    if fields != [] {
      var rest := Resolutions(fields[1..]);
      var t := r[1..];
      assert Resolves(fields[1..], t) by {
        forall i | 0 <= i < |t| ensures Admits(fields[1..][i], t[i]) {
          assert Admits(fields[i + 1], r[i + 1]);
        }
      }
      ResolutionsComplete(fields[1..], t);
      var k :| 0 <= k < |rest| && rest[k] == t;
      assert r == [r[0]] + t;
      var off := if MayBeDamaged(fields[0]) then |rest| else 0;
      if r[0] == '#' {
        ResolutionAt(fields, k);
        assert Resolutions(fields)[k] == r;
      } else {
        ResolutionAt(fields, off + k);
        assert Resolutions(fields)[off + k] == r;
      }
    }
  }

  /** A well-formed row has 2^(number of '?') resolutions. */
  lemma {:induction false} ResolutionsCount(fields: seq<char>)
    requires WellFormed(fields)
    ensures |Resolutions(fields)| == Pow2(UnknownCount(fields))
    decreases |fields|
  {
    if fields != [] {
      ResolutionsCount(fields[1..]);
    }
  }

  /** No resolution is listed twice. */
  lemma {:induction false} ResolutionsDistinct(fields: seq<char>, i: nat, j: nat)
    requires i < j < |Resolutions(fields)|
    ensures Resolutions(fields)[i] != Resolutions(fields)[j]
    decreases |fields|
  {
    var rs := Resolutions(fields);
    var rest := Resolutions(fields[1..]);
    var off := if MayBeDamaged(fields[0]) then |rest| else 0;
    if j < off || off <= i {
      var i', j' := if j < off then i else i - off, if j < off then j else j - off;
      ResolutionsDistinct(fields[1..], i', j');
      assert rs[i][1..] == rest[i'] && rs[j][1..] == rest[j'];
    } else {
      assert rs[i][0] == '#' && rs[j][0] == '.';
    }
  }

  /** Length of the run of '#' at the head of `r`. */
  function LeadingDamaged(r: seq<char>): (k: nat)
    ensures k <= |r|
    ensures forall i :: 0 <= i < k ==> r[i] == '#'
    ensures k < |r| ==> r[k] != '#'
  {
    if r == [] || r[0] != '#' then 0 else 1 + LeadingDamaged(r[1..])
  }

  /** Lengths of the maximal runs of '#' in `r`, left to right. */
  function Runs(r: seq<char>): seq<nat>
    decreases |r|
  {
    if r == [] then []
    else if r[0] != '#' then Runs(r[1..])
    else
      var k := LeadingDamaged(r);
      [k] + Runs(r[k..])
  }

  /** Number of resolutions in `rs` whose run lengths, read after `prefix`, equal `desc`. */
  ghost function Matching(rs: seq<seq<char>>, desc: seq<nat>, prefix: seq<char>): nat
  {
    if rs == [] then 0
    else (if Runs(prefix + rs[0]) == desc then 1 else 0) + Matching(rs[1..], desc, prefix)
  }

  /** THE REFERENCE COUNT: resolutions of `fields` whose run lengths are exactly `desc`. */
  ghost function Ways(fields: seq<char>, desc: seq<nat>): nat
  {
    Matching(Resolutions(fields), desc, [])
  }

  function Damaged(j: nat): (r: seq<char>)
    ensures |r| == j && forall i :: 0 <= i < j ==> r[i] == '#'
  {
    seq(j, _ => '#')
  }

  /** Arrangements of `fields` when a run of `j` '#' is already open just before it. */
  ghost function Pending(fields: seq<char>, desc: seq<nat>, j: nat): nat
  {
    Matching(Resolutions(fields), desc, Damaged(j))
  }

  lemma WaysIsPending(fields: seq<char>, desc: seq<nat>)
    ensures Ways(fields, desc) == Pending(fields, desc, 0)
  {
    assert Damaged(0) == [];
  }

  // ---------------------------------------------------------------------------------------------
  // Run lengths of concatenations

  lemma RunsAfterOperational(r: seq<char>)
    ensures Runs(['.'] + r) == Runs(r)
  {
    assert (['.'] + r)[1..] == r;
  }

  lemma RunsClosed(j: nat, r: seq<char>)
    requires j >= 1
    ensures Runs(Damaged(j) + ['.'] + r) == [j] + Runs(r)
  {
    var s := Damaged(j) + ['.'] + r;
    LeadingDamagedIs(s, j);
    assert s[j..] == ['.'] + r;
    RunsAfterOperational(r);
  }

  lemma {:induction false} LeadingDamagedIs(s: seq<char>, j: nat)
    requires j <= |s|
    requires forall i :: 0 <= i < j ==> s[i] == '#'
    requires j < |s| ==> s[j] != '#'
    ensures LeadingDamaged(s) == j
    decreases j
  {
    if j > 0 {
      LeadingDamagedIs(s[1..], j - 1);
    }
  }

  lemma RunsOfDamaged(j: nat)
    ensures Runs(Damaged(j)) == if j == 0 then [] else [j]
  {
    if j > 0 {
      LeadingDamagedIs(Damaged(j), j);
      assert Damaged(j)[j..] == [];
    }
  }

  // ---------------------------------------------------------------------------------------------
  // Counting over the enumeration

  lemma {:induction false} MatchingAppend(a: seq<seq<char>>, b: seq<seq<char>>, desc: seq<nat>, prefix: seq<char>)
    ensures Matching(a + b, desc, prefix) == Matching(a, desc, prefix) + Matching(b, desc, prefix)
    decreases |a|
  {
    if a != [] {
      assert (a + b)[1..] == a[1..] + b;
      MatchingAppend(a[1..], b, desc, prefix);
    } else {
      assert a + b == b;
    }
  }

  lemma {:induction false} MatchingPrepend(c: char, rs: seq<seq<char>>, desc: seq<nat>, prefix: seq<char>)
    ensures Matching(Prepend(c, rs), desc, prefix) == Matching(rs, desc, prefix + [c])
    decreases |rs|
  {
    if rs != [] {
      assert prefix + ([c] + rs[0]) == (prefix + [c]) + rs[0];
      assert Prepend(c, rs)[1..] == Prepend(c, rs[1..]);
      MatchingPrepend(c, rs[1..], desc, prefix);
    }
  }

  /** After a closed run of `j` cells the remaining runs must match the rest of the groups. */
  lemma {:induction false} MatchingAfterClose(rs: seq<seq<char>>, desc: seq<nat>, j: nat)
    ensures Matching(rs, desc, Damaged(j) + ['.'])
         == if j == 0 then Matching(rs, desc, [])
            else if desc != [] && desc[0] == j then Matching(rs, desc[1..], [])
            else 0
    decreases |rs|
  {
    if rs != [] {
      MatchingAfterClose(rs[1..], desc, j);
      var r := rs[0];
      assert [] + r == r;
      if j == 0 {
        assert Damaged(0) + ['.'] + r == ['.'] + r;
        RunsAfterOperational(r);
      } else {
        RunsClosed(j, r);
        var runs := Runs(Damaged(j) + ['.'] + r);
        assert runs == [j] + Runs(r);
        if desc != [] && desc[0] == j {
          assert runs == desc <==> Runs(r) == desc[1..] by {
            if runs == desc { assert runs[1..] == Runs(r); }
            if Runs(r) == desc[1..] { assert desc == [desc[0]] + desc[1..]; }
          }
        } else {
          assert runs[0] == j;
        }
      }
    }
  }

  /** The cell-by-cell recurrence of the reference count (an automaton with an open-run length). */
  lemma PendingStep(fields: seq<char>, desc: seq<nat>, j: nat)
    ensures Pending(fields, desc, j)
         == if fields == [] then (if (j == 0 && desc == []) || (j > 0 && desc == [j]) then 1 else 0)
            else
              (if MayBeDamaged(fields[0]) then Pending(fields[1..], desc, j + 1) else 0)
              + (if !MayBeOperational(fields[0]) then 0
                 else if j == 0 then Pending(fields[1..], desc, 0)
                 else if desc != [] && desc[0] == j then Pending(fields[1..], desc[1..], 0)
                 else 0)
  {
    if fields == [] {
      var none: seq<seq<char>> := [[]];
      assert Resolutions(fields) == none;
      assert Matching(none, desc, Damaged(j)) == if Runs(Damaged(j)) == desc then 1 else 0 by {
        assert Damaged(j) + [] == Damaged(j);
        assert none[1..] == [];
      }
      RunsOfDamaged(j);
    } else {
      var rest := Resolutions(fields[1..]);
      var hs := if MayBeDamaged(fields[0]) then Prepend('#', rest) else [];
      var ds := if MayBeOperational(fields[0]) then Prepend('.', rest) else [];
      assert Resolutions(fields) == hs + ds;
      MatchingAppend(hs, ds, desc, Damaged(j));
      var a := Matching(hs, desc, Damaged(j));
      var b := Matching(ds, desc, Damaged(j));
      assert Pending(fields, desc, j) == a + b;
      assert a == if MayBeDamaged(fields[0]) then Pending(fields[1..], desc, j + 1) else 0 by {
        if MayBeDamaged(fields[0]) {
          MatchingPrepend('#', rest, desc, Damaged(j));
          assert Damaged(j) + ['#'] == Damaged(j + 1);
        }
      }
      assert b == if !MayBeOperational(fields[0]) then 0
                 else if j == 0 then Pending(fields[1..], desc, 0)
                 else if desc != [] && desc[0] == j then Pending(fields[1..], desc[1..], 0)
                 else 0 by {
        if MayBeOperational(fields[0]) {
          MatchingPrepend('.', rest, desc, Damaged(j));
          MatchingAfterClose(rest, desc, j);
          assert Damaged(0) == [];
        }
      }
    }
  }

  // ---------------------------------------------------------------------------------------------
  // Group-level recurrences

  /** An open run already longer than the next group (or with no group left) never matches. */
  lemma {:induction false} PendingOverrun(fields: seq<char>, desc: seq<nat>, j: nat)
    requires j >= 1
    requires desc == [] || desc[0] < j
    ensures Pending(fields, desc, j) == 0
    decreases |fields|
  {
    PendingStep(fields, desc, j);
    if fields != [] {
      PendingOverrun(fields[1..], desc, j + 1);
    }
  }

  /** `n` cells from the head of `fields` may all be '#'. */
  predicate Fillable(fields: seq<char>, n: nat)
  {
    |fields| >= n && forall i :: 0 <= i < n ==> MayBeDamaged(fields[i])
  }

  /** Extending an open run of `j` cells up to the group length `desc[0]`. */
  lemma {:induction false} PendingExtend(fields: seq<char>, desc: seq<nat>, j: nat)
    requires desc != [] && 1 <= j <= desc[0]
    ensures Pending(fields, desc, j)
         == if Fillable(fields, desc[0] - j) then Pending(fields[desc[0] - j..], desc, desc[0]) else 0
    decreases desc[0] - j
  {
    if j < desc[0] {
      PendingStep(fields, desc, j);
      if fields != [] {
        assert Pending(fields, desc, j)
            == if MayBeDamaged(fields[0]) then Pending(fields[1..], desc, j + 1) else 0;
        PendingExtend(fields[1..], desc, j + 1);
        FillableCons(fields, desc[0] - j);
        if Fillable(fields, desc[0] - j) {
          assert fields[1..][desc[0] - j - 1..] == fields[desc[0] - j..];
        }
      }
    }
  }

  lemma FillableCons(fields: seq<char>, n: nat)
    requires fields != [] && n >= 1
    ensures Fillable(fields, n) <==> MayBeDamaged(fields[0]) && Fillable(fields[1..], n - 1)
  {
    if MayBeDamaged(fields[0]) && Fillable(fields[1..], n - 1) {
      forall i | 0 <= i < n ensures MayBeDamaged(fields[i]) {
        if i > 0 { assert fields[i] == fields[1..][i - 1]; }
      }
    }
    if Fillable(fields, n) {
      forall i | 0 <= i < n - 1 ensures MayBeDamaged(fields[1..][i]) {
        assert fields[1..][i] == fields[i + 1];
      }
    }
  }

  /** A run of exactly `desc[0]` cells must be closed by a '.' or by the end of the row. */
  lemma PendingClose(fields: seq<char>, desc: seq<nat>)
    requires desc != [] && desc[0] >= 1
    ensures Pending(fields, desc, desc[0])
         == if fields == [] then (if |desc| == 1 then 1 else 0)
            else if MayBeOperational(fields[0]) then Pending(fields[1..], desc[1..], 0)
            else 0
  {
    PendingStep(fields, desc, desc[0]);
    if fields != [] {
      PendingOverrun(fields[1..], desc, desc[0] + 1);
    } else {
      assert desc == [desc[0]] <==> |desc| == 1;
    }
  }

  /** The group `g` can be put at the head of `fields`: `g` cells that may be '#' followed by the
      end of the row or a cell that may be '.'.  (This is `can_place_group`.) */
  predicate Placeable(fields: seq<char>, g: nat)
  {
    Fillable(fields, g) && (|fields| > g ==> MayBeOperational(fields[g]))
  }

  /** What remains of the row after a group of `g` cells and its separator. */
  function AfterGroup(fields: seq<char>, g: nat): seq<char>
    requires g <= |fields|
  {
    if |fields| > g then fields[g + 1..] else []
  }

  /** The recurrence the search follows: either the head cell is left operational, or the first
      group starts at the head. */
  lemma PendingHead(fields: seq<char>, desc: seq<nat>)
    requires fields != [] && WellFormed(fields)
    requires desc != [] && desc[0] >= 1
    ensures Pending(fields, desc, 0)
         == (if Placeable(fields, desc[0]) then Pending(AfterGroup(fields, desc[0]), desc[1..], 0) else 0)
            + (if fields[0] == '#' then 0 else Pending(fields[1..], desc, 0))
  {
    PendingStep(fields, desc, 0);
    if MayBeDamaged(fields[0]) {
      PendingStartGroup(fields, desc);
    } else {
      assert !Fillable(fields, desc[0]);
    }
  }

  /** Opening the first group at the head of the row. */
  lemma PendingStartGroup(fields: seq<char>, desc: seq<nat>)
    requires fields != [] && MayBeDamaged(fields[0])
    requires desc != [] && desc[0] >= 1
    ensures Pending(fields[1..], desc, 1)
         == if Placeable(fields, desc[0]) then Pending(AfterGroup(fields, desc[0]), desc[1..], 0) else 0
  {
    var g := desc[0];
    FillableCons(fields, g);
    PendingExtend(fields[1..], desc, 1);
    if Fillable(fields[1..], g - 1) {
      var h := fields[1..][g - 1..];
      assert h == fields[g..];
      PendingClose(h, desc);
      if h != [] {
        assert h[0] == fields[g];
        assert h[1..] == fields[g + 1..];
      } else {
        PendingStep([], desc[1..], 0);
      }
    }
  }

  /** With no groups left, the only arrangement makes every remaining cell operational. */
  lemma {:induction false} PendingNoGroups(fields: seq<char>)
    ensures Pending(fields, [], 0) == if forall i :: 0 <= i < |fields| ==> MayBeOperational(fields[i]) then 1 else 0
    decreases |fields|
  {
    PendingStep(fields, [], 0);
    if fields != [] {
      PendingNoGroups(fields[1..]);
      if MayBeDamaged(fields[0]) {
        PendingOverrun(fields[1..], [], 1);
      }
      assert (forall i :: 0 <= i < |fields| ==> MayBeOperational(fields[i]))
        <==> MayBeOperational(fields[0]) && forall i :: 0 <= i < |fields[1..]| ==> MayBeOperational(fields[1..][i]) by {
        if forall i :: 0 <= i < |fields[1..]| ==> MayBeOperational(fields[1..][i]) {
          forall i | 1 <= i < |fields| ensures MayBeOperational(fields[i]) {
            assert fields[i] == fields[1..][i - 1];
          }
        }
      }
    }
  }

  /** A row shorter than the groups and their separators has no arrangement. */
  lemma {:induction false} PendingTooShort(fields: seq<char>, desc: seq<nat>, j: nat)
    requires desc != []
    requires |fields| + j < MinSpace(desc)
    ensures Pending(fields, desc, j) == 0
    decreases |fields|
  {
    PendingStep(fields, desc, j);
    MinSpaceCons(desc);
    if fields != [] {
      PendingTooShort(fields[1..], desc, j + 1);
      if j == 0 {
        PendingTooShort(fields[1..], desc, 0);
      } else if desc[0] == j && |desc| > 1 {
        PendingTooShort(fields[1..], desc[1..], 0);
      }
    }
  }
}
