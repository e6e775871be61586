/**
 * The keep-set of the PDF page editor (src/app/page.tsx): `checkedPages` is an
 * array of zero-based page indices. Loading a document fills it with every
 * page; a checkbox toggles one index, by filtering it out or by appending it.
 * The array, in its current order, is what the delete request sends.
 */
module Selection {

  /** No index occurs twice. */
  predicate Distinct(s: seq<int>) {
    forall i, j :: 0 <= i < j < |s| ==> s[i] != s[j]
  }

  /** The invariant of `checkedPages` for a document of `n` pages. */
  predicate ValidSelection(s: seq<int>, n: nat) {
    Distinct(s) && forall i :: 0 <= i < |s| ==> 0 <= s[i] < n
  }

  /** `Array.from({ length: numPages }, (_, index) => index)`: every page, in ascending order. */
  function AllPages(n: nat): (r: seq<int>)
    ensures |r| == n
    ensures forall i :: 0 <= i < n ==> r[i] == i
  {
    if n == 0 then [] else AllPages(n - 1) + [n - 1]
  }

  /** `prev.filter((page) => page !== pageNumber)`. */
  function Without(s: seq<int>, p: int): (r: seq<int>)
    ensures forall x :: x in r <==> x in s && x != p
    ensures |r| <= |s|
  {
    if s == [] then []
    else if s[0] == p then Without(s[1..], p)
    else [s[0]] + Without(s[1..], p)
  }

  /** A duplicate-free array is a first element absent from a duplicate-free rest. */
  lemma DistinctSplit(s: seq<int>)
    requires s != []
    ensures Distinct(s) <==> s[0] !in s[1..] && Distinct(s[1..])
  {
    var t := s[1..];
    if Distinct(s) {
      forall i, j | 0 <= i < j < |t| ensures t[i] != t[j] {
        assert t[i] == s[i + 1] && t[j] == s[j + 1];
      }
      forall m | 0 <= m < |t| ensures t[m] != s[0] {
        assert t[m] == s[m + 1];
      }
    } else if s[0] !in t && Distinct(t) {
      forall i, j | 0 <= i < j < |s| ensures s[i] != s[j] {
        assert s[j] == t[j - 1];
        if i > 0 {
          assert s[i] == t[i - 1];
        }
      }
    }
  }

  /** Filtering out an index that is not there changes nothing. */
  lemma {:induction false} WithoutAbsent(s: seq<int>, p: int)
    requires p !in s
    ensures Without(s, p) == s
  {
    if s != [] {
      assert p !in s[1..];
      WithoutAbsent(s[1..], p);
      assert s == [s[0]] + s[1..];
    }
  }

  /** Filtering keeps an array duplicate-free. */
  lemma {:induction false} WithoutKeepsDistinct(s: seq<int>, p: int)
    requires Distinct(s)
    ensures Distinct(Without(s, p))
  {
    if s != [] {
      DistinctSplit(s);
      WithoutKeepsDistinct(s[1..], p);
      if s[0] != p {
        var rest := Without(s[1..], p);
        assert ([s[0]] + rest)[1..] == rest;
        DistinctSplit([s[0]] + rest);
      }
    }
  }

  /** The update made by `handleCheckboxChange(pageNumber)`. */
  function Toggle(s: seq<int>, p: int): (r: seq<int>)
    ensures forall x :: x in r <==> (x in s <==> x != p)
  {
    if p in s then Without(s, p) else s + [p]
  }

  /** `checkedPages.includes(index)`: the `checked` attribute of page `index`'s checkbox. */
  predicate IsChecked(s: seq<int>, index: int) {
    index in s
  }

  /** The `checked` states of the checkboxes rendered for pages 0 .. n-1. */
  function CheckboxStates(s: seq<int>, n: nat): seq<bool> {
    seq(n, i => IsChecked(s, i))
  }

  /** Loading a document selects every page, once each, and nothing else. */
  lemma AllPagesIsFullSelection(n: nat)
    ensures ValidSelection(AllPages(n), n)
    ensures forall x :: x in AllPages(n) <==> 0 <= x < n
    ensures forall i :: 0 <= i < n ==> CheckboxStates(AllPages(n), n)[i]
  {
    var s := AllPages(n);
    forall x | 0 <= x < n ensures x in s {
      assert s[x] == x;
    }
  }

  /** Filtering out the element at position `k` of a duplicate-free array
      deletes exactly that position and keeps the rest in their order. */
  lemma {:induction false} WithoutAt(s: seq<int>, k: nat)
    requires Distinct(s) && k < |s|
    ensures Without(s, s[k]) == s[..k] + s[k + 1..]
  {
    var t := s[1..];
    DistinctSplit(s);
    if k == 0 {
      WithoutAbsent(t, s[0]);
      assert t == s[..0] + s[1..];
    } else {
      assert s[0] != s[k] by {
        assert s[k] == t[k - 1];
      }
      assert t[k - 1] == s[k];
      assert Without(s, s[k]) == [s[0]] + Without(t, s[k]);
      WithoutAt(t, k - 1);
      assert s[..k] == [s[0]] + t[..k - 1];
      assert s[k + 1..] == t[k..];
      assert [s[0]] + (t[..k - 1] + t[k..]) == ([s[0]] + t[..k - 1]) + t[k..];
    }
  }

  /** Filtering distributes over concatenation. */
  lemma {:induction false} WithoutAppend(a: seq<int>, b: seq<int>, p: int)
    ensures Without(a + b, p) == Without(a, p) + Without(b, p)
  {
    if a == [] {
      assert a + b == b;
    } else {
      assert (a + b)[1..] == a[1..] + b;
      WithoutAppend(a[1..], b, p);
    }
  }

  /** Toggling a checked page removes it and keeps every other page in its place. */
  lemma TogglePresent(s: seq<int>, k: nat)
    requires Distinct(s) && k < |s|
    ensures Toggle(s, s[k]) == s[..k] + s[k + 1..]
    ensures |Toggle(s, s[k])| == |s| - 1
  {
    WithoutAt(s, k);
  }

  /** Toggling an unchecked page appends it at the end and leaves the prefix alone. */
  lemma ToggleAbsent(s: seq<int>, p: int)
    requires p !in s
    ensures |Toggle(s, p)| == |s| + 1
    ensures Toggle(s, p)[..|s|] == s
    ensures Toggle(s, p)[|s|] == p
  {
  }

  /** Toggles issued by the checkboxes of pages 0 .. n-1 keep the invariant. */
  lemma ToggleKeepsValid(s: seq<int>, n: nat, p: int)
    requires ValidSelection(s, n) && 0 <= p < n
    ensures ValidSelection(Toggle(s, p), n)
  {
    var r := Toggle(s, p);
    if p in s {
      WithoutKeepsDistinct(s, p);
    } else {
      forall i, j | 0 <= i < j < |r| ensures r[i] != r[j] {
        if j == |s| {
          assert r[i] == s[i];
        } else {
          assert r[i] == s[i] && r[j] == s[j];
        }
      }
    }
    forall i | 0 <= i < |r| ensures 0 <= r[i] < n {
      assert r[i] in r;
      if r[i] != p {
        var j :| 0 <= j < |s| && s[j] == r[i];
      }
    }
  }

  /** Toggling the same page twice restores every page's membership; the exact
      array comes back only when the page was unchecked, otherwise the page
      moves to the end. */
  lemma ToggleTwice(s: seq<int>, p: int)
    ensures forall x :: x in Toggle(Toggle(s, p), p) <==> x in s
    ensures p !in s ==> Toggle(Toggle(s, p), p) == s
    ensures Distinct(s) && p in s ==>
      exists k :: 0 <= k < |s| && s[k] == p && Toggle(Toggle(s, p), p) == s[..k] + s[k + 1..] + [p]
  {
    if p !in s {
      WithoutAppend(s, [p], p);
      WithoutAbsent(s, p);
      assert Without([p], p) == [];
      assert s + [] == s;
    } else if Distinct(s) {
      var k :| 0 <= k < |s| && s[k] == p;
      TogglePresent(s, k);
    }
  }

  /** A checkbox toggle flips exactly the toggled page's checkbox. */
  lemma ToggleFlipsOneCheckbox(s: seq<int>, n: nat, p: int, i: int)
    requires 0 <= i < n
    ensures CheckboxStates(Toggle(s, p), n)[i] == (CheckboxStates(s, n)[i] != (i == p))
  {
  }

  /** Counts how often `x` occurs in `s`. */
  function Occurrences(s: seq<int>, x: int): (c: nat)
    ensures c == 0 <==> x !in s
  {
    if s == [] then 0 else (if s[0] == x then 1 else 0) + Occurrences(s[1..], x)
  }

  /** Under the invariant, the array holds each checked page exactly once and no
      other index: it lists the checked checkboxes without repetition. */
  lemma {:induction false} ValidSelectionListsCheckedPages(s: seq<int>, n: nat)
    requires ValidSelection(s, n)
    ensures forall x :: Occurrences(s, x) == if 0 <= x < n && CheckboxStates(s, n)[x] then 1 else 0
  {
    if s != [] {
      var t := s[1..];
      DistinctSplit(s);
      assert ValidSelection(t, n);
      ValidSelectionListsCheckedPages(t, n);
      assert s[0] !in t;
      forall x ensures Occurrences(s, x) == if 0 <= x < n && CheckboxStates(s, n)[x] then 1 else 0 {
        if x == s[0] {
          assert Occurrences(t, x) == 0;
        } else {
          assert x in s <==> x in t;
        }
      }
    }
  }

  /** The array after the user clicks the checkboxes of `clicks`, in order. */
  function ApplyToggles(s: seq<int>, clicks: seq<int>): seq<int>
    decreases clicks
  {
    if clicks == [] then s else ApplyToggles(Toggle(s, clicks[0]), clicks[1..])
  }

  /** Clicks on rendered checkboxes (pages 0 .. n-1) keep the invariant. */
  lemma {:induction false} TogglesKeepValid(s: seq<int>, n: nat, clicks: seq<int>)
    requires ValidSelection(s, n)
    requires forall i :: 0 <= i < |clicks| ==> 0 <= clicks[i] < n
    ensures ValidSelection(ApplyToggles(s, clicks), n)
    decreases clicks
  {
    if clicks != [] {
      ToggleKeepsValid(s, n, clicks[0]);
      TogglesKeepValid(Toggle(s, clicks[0]), n, clicks[1..]);
    }
  }

  /** A page is in the array exactly when it was in it before and was clicked
      an even number of times, or was not and was clicked an odd number of times. */
  lemma {:induction false} ToggleParity(s: seq<int>, clicks: seq<int>, x: int)
    ensures x in ApplyToggles(s, clicks) <==> (x in s <==> Occurrences(clicks, x) % 2 == 0)
    decreases clicks
  {
    if clicks == [] {
      assert Occurrences(clicks, x) == 0;
    } else {
      var t := Toggle(s, clicks[0]);
      assert ApplyToggles(s, clicks) == ApplyToggles(t, clicks[1..]);
      ToggleParity(t, clicks[1..], x);
      var rest := Occurrences(clicks[1..], x);
      if clicks[0] == x {
        assert Occurrences(clicks, x) == rest + 1;
        ParityStep(rest);
        assert x in t <==> x !in s;
      } else {
        assert Occurrences(clicks, x) == rest;
        assert x in t <==> x in s;
      }
    }
  }

  lemma ParityStep(r: nat)
    ensures (r + 1) % 2 == 0 <==> r % 2 != 0
  {
  }

  /** Every state the page editor can reach: loaded with every page kept, then
      any clicks on its checkboxes. Each page is kept iff clicked an even number
      of times, and the array stays a duplicate-free list of page indices. */
  lemma ReachableSelection(n: nat, clicks: seq<int>)
    requires forall i :: 0 <= i < |clicks| ==> 0 <= clicks[i] < n
    ensures ValidSelection(ApplyToggles(AllPages(n), clicks), n)
    ensures forall x :: x in ApplyToggles(AllPages(n), clicks) <==> 0 <= x < n && Occurrences(clicks, x) % 2 == 0
  {
    AllPagesIsFullSelection(n);
    TogglesKeepValid(AllPages(n), n, clicks);
    forall x ensures x in ApplyToggles(AllPages(n), clicks) <==> 0 <= x < n && Occurrences(clicks, x) % 2 == 0 {
      ToggleParity(AllPages(n), clicks, x);
      if !(0 <= x < n) {
        assert x !in clicks;
      }
    }
  }

  /** The example of the order sent: from pages [0, 1, 2], unchecking and
      rechecking page 0 yields [1, 2, 0], not the ascending [0, 1, 2]. */
  lemma ToggleOrderExample()
    ensures AllPages(3) == [0, 1, 2]
    ensures Toggle(Toggle(AllPages(3), 0), 0) == [1, 2, 0]
  {
    var s := AllPages(3);
    assert s == [0, 1, 2];
    assert s[1..] == [1, 2];
    assert Toggle(s, 0) == [1, 2];
    assert 0 !in [1, 2];
  }

  /** The array depends on toggle history, not only on which boxes are checked:
      two histories with the same checkboxes give different arrays. */
  lemma OrderFollowsHistory()
    ensures CheckboxStates(AllPages(3), 3) == CheckboxStates(Toggle(Toggle(AllPages(3), 0), 0), 3)
    ensures AllPages(3) != Toggle(Toggle(AllPages(3), 0), 0)
  {
    ToggleOrderExample();
    ToggleTwice(AllPages(3), 0);
  }
}
