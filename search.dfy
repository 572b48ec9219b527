/** `dataFilter`: the case-insensitive search over the displayed records. */
module Search {
  import opened Records
  import opened Seqs

  /** ASCII lower-casing of one character. */
  function LowerChar(c: char): char {
    if 'A' <= c <= 'Z' then (c as int + 32) as char else c
  }

  /** `toLowerCase`, restricted to ASCII letters. */
  function Lower(s: string): (r: string)
    ensures |r| == |s|
    ensures forall k :: 0 <= k < |s| ==> r[k] == LowerChar(s[k])
    decreases |s|
  {
    if s == [] then [] else [LowerChar(s[0])] + Lower(s[1..])
  }

  /** `t` occurs in `s` starting at position `i`. */
  predicate OccursAt(s: string, t: string, i: int) {
    0 <= i <= |s| - |t| && s[i..i + |t|] == t
  }

  /** `s.includes(t)`: `t` occurs in `s` as a contiguous block. */
  predicate Includes(s: string, t: string) {
    exists i | 0 <= i <= |s| :: OccursAt(s, t, i)
  }

  /** A string includes only strings no longer than itself, and includes itself. */
  lemma IncludesBounds()
    ensures forall s, t :: Includes(s, t) ==> |t| <= |s|
    ensures forall s :: Includes(s, s)
  {
    forall s ensures Includes(s, s) {
      assert OccursAt(s, s, 0);
    }
  }

  /** The filter predicate of `dataFilter`: the lower-cased term occurs in the lower-cased
      `nama` or in the lower-cased `kategori`. A record matches only terms that fit in one of
      the two fields, and matches every term equal to one of them up to case. */
  function MatchesTerm(term: string): (p: ItemUI -> bool)
    ensures forall u: ItemUI :: p(u) ==> |term| <= |u.item.nama| || |term| <= |u.item.kategori|
    ensures forall u: ItemUI :: Lower(u.item.nama) == Lower(term) || Lower(u.item.kategori) == Lower(term) ==> p(u)
  {
    IncludesBounds();
    (u: ItemUI) => Includes(Lower(u.item.nama), Lower(term)) || Includes(Lower(u.item.kategori), Lower(term))
  }

  /** `dataFilter` for the search field's current `term`: an order-preserving subsequence of
      the display list that holds exactly the matching records, each as often as in the list. */
  function DataFilter(ui: seq<ItemUI>, term: string): (r: seq<ItemUI>)
    ensures IsSubsequence(r, ui)
    ensures forall u :: u in r <==>
      u in ui && (Includes(Lower(u.item.nama), Lower(term)) || Includes(Lower(u.item.kategori), Lower(term)))
    ensures forall u :: MatchesTerm(term)(u) ==> multiset(r)[u] == multiset(ui)[u]
  {
    Filter(ui, MatchesTerm(term))
  }

  /** Every string contains the empty string. */
  lemma IncludesEmpty(s: string)
    ensures Includes(s, "")
  {
    assert OccursAt(s, "", 0);
  }

  /** The empty term returns the whole display list. */
  lemma DataFilterEmptyTerm(ui: seq<ItemUI>)
    ensures DataFilter(ui, "") == ui
  {
    forall u | u in ui ensures MatchesTerm("")(u) {
      IncludesEmpty(Lower(u.item.nama));
    }
  }

  /** Lower-casing twice is lower-casing once. */
  lemma LowerIdempotent(s: string)
    ensures Lower(Lower(s)) == Lower(s)
  {
    var l := Lower(s);
    assert forall k :: 0 <= k < |s| ==> Lower(l)[k] == LowerChar(LowerChar(s[k]));
  }

  /** The search ignores the case of the term: `term` and its lower-cased form find the same
      records. */
  lemma DataFilterIgnoresTermCase(ui: seq<ItemUI>, term: string)
    ensures DataFilter(ui, term) == DataFilter(ui, Lower(term))
  {
    LowerIdempotent(term);
    FilterCongruent(ui, MatchesTerm(term), MatchesTerm(Lower(term)));
  }
}
