/** `deduplicateTerms`: merges term objects with the same text into the
    first of them. On the second sighting of a text its first term is
    promoted: it gains `locations` (seeded with its own file and position)
    and loses `file` and `position`; each later sighting appends its file
    and position. Other fields of the first term stay. */
module Deduplicator {
  import opened JsValue
  import opened ExtractorConfig
  import opened Terms

  predicate HasText(terms: seq<Term>, x: string) {
    exists k :: 0 <= k < |terms| && terms[k].text == x
  }

  predicate TextsDistinct(terms: seq<Term>) {
    forall i, j :: 0 <= i < j < |terms| ==> terms[i].text != terms[j].text
  }

  predicate NoDuplicates(xs: seq<string>) {
    forall i, j :: 0 <= i < j < |xs| ==> xs[i] != xs[j]
  }

  /** The distinct texts of `terms`, in order of first appearance. */
  function DistinctTexts(terms: seq<Term>): seq<string> {
    if terms == [] then []
    else
      var p := DistinctTexts(terms[..|terms| - 1]);
      var x := terms[|terms| - 1].text;
      if x in p then p else p + [x]
  }

  /** The terms whose text is `x`, in input order. */
  function WithText(terms: seq<Term>, x: string): seq<Term> {
    if terms == [] then []
    else
      var last := terms[|terms| - 1];
      WithText(terms[..|terms| - 1], x) + (if last.text == x then [last] else [])
  }

  function LocationOf(t: Term): Location {
    Location(t.file, t.position)
  }

  /** Appends the file and position of `term` to `existing`, promoting
      `existing` first when it has no `locations` yet. */
  function AddLocation(existing: Term, term: Term): Term {
    var promoted :=
      if existing.locations.None? then
        existing.(file := None, position := None, locations := Some([LocationOf(existing)]))
      else existing;
    promoted.(locations := Some(promoted.locations.value + [LocationOf(term)]))
  }

  /** The single term that the terms of one text merge into. */
  function Merged(occ: seq<Term>): Term
    requires occ != []
  {
    if |occ| == 1 then occ[0] else AddLocation(Merged(occ[..|occ| - 1]), occ[|occ| - 1])
  }

  /** The result of deduplication: one merged term per distinct text, in
      order of first appearance. */
  function Deduplicated(terms: seq<Term>): (r: seq<Term>)
    ensures |r| == |DistinctTexts(terms)|
    ensures forall i :: 0 <= i < |r| ==> r[i].text == DistinctTexts(terms)[i]
  {
    var texts := DistinctTexts(terms);
    seq(|texts|, i requires 0 <= i < |texts| => MergedAt(terms, i))
  }

  function MergedAt(terms: seq<Term>, i: nat): (r: Term)
    requires i < |DistinctTexts(terms)|
    ensures r.text == DistinctTexts(terms)[i]
  {
    DistinctTextsSpec(terms);
    WithTextSpec(terms, DistinctTexts(terms)[i]);
    MergedText(WithText(terms, DistinctTexts(terms)[i]));
    Merged(WithText(terms, DistinctTexts(terms)[i]))
  }

  lemma {:induction false} DistinctTextsSpec(terms: seq<Term>)
    ensures NoDuplicates(DistinctTexts(terms))
    ensures forall x :: x in DistinctTexts(terms) <==> HasText(terms, x)
  {
    if terms != [] {
      var p := terms[..|terms| - 1];
      DistinctTextsSpec(p);
      forall x ensures HasText(terms, x) <==> HasText(p, x) || x == terms[|terms| - 1].text {
        if HasText(terms, x) && x != terms[|terms| - 1].text {
          var k :| 0 <= k < |terms| && terms[k].text == x;
          assert p[k] == terms[k];
        }
        if HasText(p, x) {
          var k :| 0 <= k < |p| && p[k].text == x;
          assert terms[k] == p[k];
        }
      }
    }
  }

  lemma {:induction false} WithTextSpec(terms: seq<Term>, x: string)
    ensures forall k :: 0 <= k < |WithText(terms, x)| ==> WithText(terms, x)[k].text == x
    ensures WithText(terms, x) == [] <==> !HasText(terms, x)
  {
    if terms != [] {
      var p := terms[..|terms| - 1];
      WithTextSpec(p, x);
      if HasText(p, x) {
        var k :| 0 <= k < |p| && p[k].text == x;
        assert terms[k] == p[k];
      }
      if HasText(terms, x) && terms[|terms| - 1].text != x {
        var k :| 0 <= k < |terms| && terms[k].text == x;
        assert p[k] == terms[k];
      }
    }
  }

  lemma {:induction false} MergedText(occ: seq<Term>)
    requires occ != []
    ensures Merged(occ).text == occ[0].text
  {
    if |occ| > 1 {
      MergedText(occ[..|occ| - 1]);
    }
  }

  /** One more term: either it is merged into the entry with its text, or
      it is appended as a new entry. */
  lemma DeduplicatedSnoc(p: seq<Term>, t: Term)
    ensures HasText(p, t.text) ==>
      exists k :: 0 <= k < |Deduplicated(p)| && Deduplicated(p)[k].text == t.text
    ensures forall k :: 0 <= k < |Deduplicated(p)| && Deduplicated(p)[k].text == t.text ==>
      Deduplicated(p + [t]) == Deduplicated(p)[k := AddLocation(Deduplicated(p)[k], t)]
    ensures !HasText(p, t.text) ==> Deduplicated(p + [t]) == Deduplicated(p) + [t]
  {
    DistinctTextsSpec(p);
    var d := DistinctTexts(p);
    if HasText(p, t.text) {
      var k0 :| 0 <= k0 < |d| && d[k0] == t.text;
      assert Deduplicated(p)[k0].text == t.text;
      forall k | 0 <= k < |Deduplicated(p)| && Deduplicated(p)[k].text == t.text
        ensures Deduplicated(p + [t]) == Deduplicated(p)[k := AddLocation(Deduplicated(p)[k], t)]
      {
        SnocMerged(p, t, k);
      }
    } else {
      SnocNew(p, t);
    }
  }

  lemma SnocWithText(p: seq<Term>, t: Term, x: string)
    ensures WithText(p + [t], x) == WithText(p, x) + (if t.text == x then [t] else [])
  {
    var q := p + [t];
    assert q[..|q| - 1] == p;
  }

  /** With an unchanged list of texts, the i-th entry gains the new term's
      location exactly when the new term has its text. */
  lemma SnocEntry(p: seq<Term>, t: Term, i: nat)
    requires DistinctTexts(p + [t]) == DistinctTexts(p)
    requires i < |DistinctTexts(p)|
    ensures Deduplicated(p + [t])[i] ==
      if DistinctTexts(p)[i] == t.text then AddLocation(Deduplicated(p)[i], t) else Deduplicated(p)[i]
  {
    var d := DistinctTexts(p);
    DistinctTextsSpec(p);
    assert d[i] in d;
    SnocWithText(p, t, d[i]);
    WithTextSpec(p, d[i]);
    var w := WithText(p, d[i]);
    assert w != [];
    assert Deduplicated(p)[i] == Merged(w);
    assert Deduplicated(p + [t])[i] == Merged(WithText(p + [t], d[i]));
    if d[i] == t.text {
      assert WithText(p + [t], d[i]) == w + [t];
      assert (w + [t])[..|w + [t]| - 1] == w;
    } else {
      assert WithText(p + [t], d[i]) == w;
    }
  }

  lemma SnocMerged(p: seq<Term>, t: Term, k: nat)
    requires k < |Deduplicated(p)| && Deduplicated(p)[k].text == t.text
    ensures Deduplicated(p + [t]) == Deduplicated(p)[k := AddLocation(Deduplicated(p)[k], t)]
  {
    var q := p + [t];
    assert q[..|q| - 1] == p;
    DistinctTextsSpec(p);
    var d := DistinctTexts(p);
    assert d[k] == t.text;
    assert DistinctTexts(q) == d;
    var expected := Deduplicated(p)[k := AddLocation(Deduplicated(p)[k], t)];
    forall i | 0 <= i < |d| ensures Deduplicated(q)[i] == expected[i] {
      SnocEntry(p, t, i);
      if i != k {
        assert d[i] != d[k];
      }
    }
  }

  lemma SnocNew(p: seq<Term>, t: Term)
    requires !HasText(p, t.text)
    ensures Deduplicated(p + [t]) == Deduplicated(p) + [t]
  {
    var q := p + [t];
    assert q[..|q| - 1] == p;
    DistinctTextsSpec(p);
    var d := DistinctTexts(p);
    assert DistinctTexts(q) == d + [t.text];
    WithTextSpec(p, t.text);
    SnocWithText(p, t, t.text);
    assert WithText(q, t.text) == [t];
    forall i | 0 <= i < |d| ensures Deduplicated(q)[i] == Deduplicated(p)[i] {
      assert d[i] in d;
      assert d[i] != t.text;
      assert DistinctTexts(q)[i] == d[i];
      SnocWithText(p, t, d[i]);
      WithTextSpec(p, d[i]);
      assert WithText(q, d[i]) == WithText(p, d[i]);
      assert Deduplicated(q)[i] == Merged(WithText(q, d[i]));
      assert Deduplicated(p)[i] == Merged(WithText(p, d[i]));
    }
  }

  /** The merged shape: a text seen once keeps its term untouched; a text
      seen k >= 2 times (whose first term had no `locations`) carries k
      locations in input order, has no `file` or `position`, and keeps the
      other fields of its first term. */
  lemma {:induction false} MergedShape(occ: seq<Term>)
    requires occ != []
    ensures |occ| == 1 ==> Merged(occ) == occ[0]
    ensures |occ| >= 2 && occ[0].locations.None? ==>
      && Merged(occ).locations == Some(seq(|occ|, j requires 0 <= j < |occ| => LocationOf(occ[j])))
      && Merged(occ) == occ[0].(file := None, position := None, locations := Merged(occ).locations)
  {
    if |occ| >= 2 && occ[0].locations.None? {
      var p := occ[..|occ| - 1];
      assert p[0] == occ[0];
      var locs := seq(|p|, j requires 0 <= j < |p| => LocationOf(p[j]));
      var last := occ[|occ| - 1];
      assert seq(|occ|, j requires 0 <= j < |occ| => LocationOf(occ[j])) == locs + [LocationOf(last)];
      assert Merged(occ) == AddLocation(Merged(p), last);
      if |p| >= 2 {
        MergedShape(p);
        assert Merged(p).locations == Some(locs);
      } else {
        assert Merged(p) == occ[0];
        assert locs == [LocationOf(occ[0])];
      }
    }
  }

  /** Each output entry is the merge of all input terms with its text. */
  lemma DeduplicatedEntry(terms: seq<Term>, i: nat)
    requires i < |Deduplicated(terms)|
    ensures var e := Deduplicated(terms)[i];
            var occ := WithText(terms, e.text);
            && occ != []
            && (|occ| == 1 ==> e == occ[0])
            && (|occ| >= 2 && occ[0].locations.None? ==>
                  && e.locations == Some(seq(|occ|, j requires 0 <= j < |occ| => LocationOf(occ[j])))
                  && e == occ[0].(file := None, position := None, locations := e.locations))
  {
    var x := DistinctTexts(terms)[i];
    DistinctTextsSpec(terms);
    WithTextSpec(terms, x);
    MergedShape(WithText(terms, x));
  }

  /** The output holds exactly one entry per distinct input text, ordered by
      first appearance: every occurrence of a later entry's text comes after
      some occurrence of an earlier entry's text. */
  lemma {:induction false} DeduplicatedOrder(terms: seq<Term>)
    ensures TextsDistinct(Deduplicated(terms))
    ensures forall x :: HasText(Deduplicated(terms), x) <==> HasText(terms, x)
    ensures forall i, j, b :: 0 <= i < j < |Deduplicated(terms)| && 0 <= b < |terms| && terms[b].text == Deduplicated(terms)[j].text ==>
      OccursBefore(terms, Deduplicated(terms)[i].text, b)
  {
    DistinctTextsSpec(terms);
    var d := DistinctTexts(terms);
    var r := Deduplicated(terms);
    forall i, j | 0 <= i < j < |r| ensures r[i].text != r[j].text {
      assert r[i].text == d[i] && r[j].text == d[j];
    }
    forall x ensures HasText(r, x) <==> HasText(terms, x) {
      if HasText(terms, x) {
        var k :| 0 <= k < |d| && d[k] == x;
        assert r[k].text == x;
      }
      if HasText(r, x) {
        var k :| 0 <= k < |r| && r[k].text == x;
        assert d[k] == x && d[k] in d;
      }
    }
    DistinctTextsFirstAppearance(terms);
    forall i, j, b | 0 <= i < j < |Deduplicated(terms)| && 0 <= b < |terms| && terms[b].text == Deduplicated(terms)[j].text
      ensures OccursBefore(terms, Deduplicated(terms)[i].text, b)
    {
      assert r[i].text == d[i] && r[j].text == d[j];
      assert OccursBefore(terms, d[i], b);
    }
  }

  /** Some term before position `b` has text `x`. */
  predicate OccursBefore(terms: seq<Term>, x: string, b: int) {
    exists a :: 0 <= a < b && a < |terms| && terms[a].text == x
  }

  lemma {:induction false} DistinctTextsFirstAppearance(terms: seq<Term>)
    ensures forall i, j, b :: 0 <= i < j < |DistinctTexts(terms)| && 0 <= b < |terms| && terms[b].text == DistinctTexts(terms)[j] ==>
      OccursBefore(terms, DistinctTexts(terms)[i], b)
  {
    if terms != [] {
      var p := terms[..|terms| - 1];
      var t := terms[|terms| - 1];
      DistinctTextsFirstAppearance(p);
      DistinctTextsSpec(p);
      var d := DistinctTexts(p);
      var all := DistinctTexts(terms);
      assert all == if t.text in d then d else d + [t.text];
      forall i, j, b | 0 <= i < j < |all| && 0 <= b < |terms| && terms[b].text == all[j]
        ensures OccursBefore(terms, all[i], b)
      {
        assert all[i] == d[i];
        if b < |p| && j < |d| {
          assert p[b] == terms[b] && all[j] == d[j];
          assert OccursBefore(p, d[i], b);
          var a :| 0 <= a < b && a < |p| && p[a].text == d[i];
          assert terms[a] == p[a];
        } else {
          // either b is the last term or the j-th text is the new one:
          // in both cases d[i] occurs somewhere in p, hence before b
          assert d[i] in d;
          assert HasText(p, d[i]);
          var a :| 0 <= a < |p| && p[a].text == d[i];
          assert terms[a] == p[a];
        }
      }
    }
  }

  /** A list whose texts are already distinct is left as it is. */
  lemma {:induction false} DistinctTermsUnchanged(terms: seq<Term>)
    requires TextsDistinct(terms)
    ensures Deduplicated(terms) == terms
  {
    if terms != [] {
      var p := terms[..|terms| - 1];
      var t := terms[|terms| - 1];
      assert terms == p + [t];
      DistinctTermsUnchanged(p);
      DeduplicatedSnoc(p, t);
    }
  }

  /** Deduplicating twice gives the same result as deduplicating once. */
  lemma DeduplicateIdempotent(terms: seq<Term>)
    ensures Deduplicated(Deduplicated(terms)) == Deduplicated(terms)
  {
    DeduplicatedOrder(terms);
    DistinctTermsUnchanged(Deduplicated(terms));
  }

  /** `find(t => t.text === key)` over the deduplicated list. */
  method FindByText(deduplicated: seq<Term>, key: string) returns (k: int)
    ensures -1 <= k < |deduplicated|
    ensures k >= 0 ==> deduplicated[k].text == key && forall j :: 0 <= j < k ==> deduplicated[j].text != key
    ensures k < 0 ==> forall j :: 0 <= j < |deduplicated| ==> deduplicated[j].text != key
  {
    k := 0;
    while k < |deduplicated|
      invariant 0 <= k <= |deduplicated|
      invariant forall j :: 0 <= j < k ==> deduplicated[j].text != key
    {
      if deduplicated[k].text == key {
        return;
      }
      k := k + 1;
    }
    k := -1;
  }

  /** `deduplicateTerms(terms)`: the input itself when the configured
      `output_config.deduplicate` is falsy (also when it is absent), else
      one merged term per distinct text in order of first appearance. */
  method DeduplicateTerms(cfg: Settings, terms: seq<Term>) returns (r: seq<Term>)
    ensures !Truthy(cfg.deduplicate) ==> r == terms
    ensures Truthy(cfg.deduplicate) ==> r == Deduplicated(terms)
  {
    if !Truthy(cfg.deduplicate) {
      return terms;
    }
    var seen: set<string> := {};
    var deduplicated: seq<Term> := [];
    var i := 0;
    while i < |terms|
      invariant 0 <= i <= |terms|
      invariant deduplicated == Deduplicated(terms[..i])
      invariant forall x :: x in seen <==> HasText(terms[..i], x)
    {
      var term := terms[i];
      var key := term.text;
      assert terms[..i + 1] == terms[..i] + [term];
      DeduplicatedSnoc(terms[..i], term);
      if key !in seen {
        seen := seen + {key};
        deduplicated := deduplicated + [term];
      } else {
        var k := FindByText(deduplicated, key);
        if k >= 0 {
          var existing := deduplicated[k];
          if existing.locations.None? {
            existing := existing.(locations := Some([Location(existing.file, existing.position)]),
                                  file := None, position := None);
          }
          existing := existing.(locations := Some(existing.locations.value + [Location(term.file, term.position)]));
          deduplicated := deduplicated[k := existing];
        }
      }
      forall x ensures HasText(terms[..i + 1], x) <==> HasText(terms[..i], x) || x == key {
        if HasText(terms[..i + 1], x) && x != key {
          var j :| 0 <= j < i + 1 && terms[..i + 1][j].text == x;
          assert terms[..i][j] == terms[..i + 1][j];
        }
        if HasText(terms[..i], x) {
          var j :| 0 <= j < i && terms[..i][j].text == x;
          assert terms[..i + 1][j] == terms[..i][j];
        }
      }
      i := i + 1;
    }
    assert terms[..i] == terms;
    r := deduplicated;
  }
}
