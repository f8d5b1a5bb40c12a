/** The comma-list chain `s.split(",").map(x => x.trim()).filter(Boolean)`,
    written once in each catalog file (`parseList`, and inside
    `parseBrewMethods` and `parseVibeTags`). */
module CommaList {
  import opened Text
  import Seqs

  function TrimAll(ps: seq<string>): (r: seq<string>)
    ensures |r| == |ps|
    ensures forall k :: 0 <= k < |ps| ==> r[k] == Trim(ps[k])
  {
    seq(|ps|, k requires 0 <= k < |ps| => Trim(ps[k]))
  }

  predicate NonEmpty(s: string) {
    s != ""
  }

  /** Every piece of `Split(s, sep)` is made of characters of `s`. */
  lemma {:induction false} SplitPiecesFromInput(s: string, sep: char)
    ensures forall k, j :: 0 <= k < |Split(s, sep)| && 0 <= j < |Split(s, sep)[k]| ==> Split(s, sep)[k][j] in s
  {
    if |s| > 0 {
      SplitPiecesFromInput(s[1..], sep);
    }
  }

  /** What the filter chain keeps and drops. */
  lemma {:induction false} FilterChainFacts(s: string)
    ensures var r := Seqs.Filter(TrimAll(Split(s, ',')), NonEmpty);
      && (forall k :: 0 <= k < |Split(s, ',')| && !IsBlank(Split(s, ',')[k]) ==> Trim(Split(s, ',')[k]) in r)
      && (forall k :: 0 <= k < |r| ==> r[k] in TrimAll(Split(s, ',')))
      && Seqs.IsSubseq(r, TrimAll(Split(s, ',')))
      && (IsBlank(s) ==> r == [])
  {
    var pieces := Split(s, ',');
    var trimmed := TrimAll(pieces);
    var r := Seqs.Filter(trimmed, NonEmpty);
    Seqs.FilterSpec(trimmed, NonEmpty);
    forall k | 0 <= k < |pieces| && !IsBlank(pieces[k]) ensures Trim(pieces[k]) in r {
      TrimEmptyIffBlank(pieces[k]);
      assert NonEmpty(trimmed[k]);
    }
    if IsBlank(s) {
      SplitPiecesFromInput(s, ',');
      forall k | 0 <= k < |trimmed| ensures trimmed[k] == "" {
        assert IsBlank(pieces[k]);
        TrimEmptyIffBlank(pieces[k]);
      }
    }
  }

  /** The trimmed, non-empty comma-separated items of `s`, in input order. */
  function Parse(s: string): (r: seq<string>)
    ensures forall k :: 0 <= k < |r| ==> r[k] != "" && IsTrimmed(r[k])
    ensures |r| <= multiset(s)[','] + 1
    ensures Seqs.IsSubseq(r, TrimAll(Split(s, ',')))
    ensures forall k :: 0 <= k < |Split(s, ',')| && !IsBlank(Split(s, ',')[k]) ==> Trim(Split(s, ',')[k]) in r
    ensures IsBlank(s) ==> r == []
    ensures forall x :: multiset(r)[x] == if x == "" then 0 else multiset(TrimAll(Split(s, ',')))[x]
  {
    FilterChainFacts(s);
    Seqs.FilterCountAll(TrimAll(Split(s, ',')), NonEmpty);
    Seqs.Filter(TrimAll(Split(s, ',')), NonEmpty)
  }
}
