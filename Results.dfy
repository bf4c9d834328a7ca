/**
 * The results screen (renderResults): the outcome log a board leaves
 * behind, the score it adds up to, the per-category counts gathered by the
 * byCat loop, the category cards ordered by ascending accuracy, and the
 * review list of the clues missed or passed. Accuracy is a fraction of
 * integer counts; two accuracies are compared by cross-multiplication.
 */
module Results {
  import Board

  /** The three ways a clue can end. */
  datatype Status = Correct | Wrong | Skipped

  /** One entry of the outcome log: how the clue ended, its column name and value, and its texts. */
  datatype Outcome = Outcome(status: Status, cat: string, value: int, clue: string, response: string)

  // ---------------------------------------------------------------------
  // Score

  /** What one outcome does to the score: plus the value when correct, minus it when wrong, nothing when skipped. */
  function Delta(o: Outcome): (d: int)
    ensures o.status == Correct ==> d == o.value
    ensures o.status == Wrong ==> d == -o.value
    ensures o.status == Skipped ==> d == 0
  {
    match o.status
    case Correct => o.value
    case Wrong => -o.value
    case Skipped => 0
  }

  /** The score the outcome log produces, one outcome after another. */
  function Score(os: seq<Outcome>): int
  {
    if os == [] then 0 else Score(os[..|os| - 1]) + Delta(os[|os| - 1])
  }

  /** The values of the outcomes with status st, added up. */
  function ValueTotal(os: seq<Outcome>, st: Status): int
  {
    if os == [] then 0
    else ValueTotal(os[..|os| - 1], st) + (if os[|os| - 1].status == st then os[|os| - 1].value else 0)
  }

  /** Appending an outcome to the log moves the score by that outcome's delta. */
  lemma ScoreAppend(os: seq<Outcome>, o: Outcome)
    ensures Score(os + [o]) == Score(os) + Delta(o)
  {
    assert (os + [o])[..|os|] == os;
  }

  /** The score is the sum of the correct values minus the sum of the wrong values. */
  lemma {:induction false} ScoreIsCorrectMinusWrong(os: seq<Outcome>)
    ensures Score(os) == ValueTotal(os, Correct) - ValueTotal(os, Wrong)
    decreases |os|
  {
    if os != [] {
      ScoreIsCorrectMinusWrong(os[..|os| - 1]);
    }
  }

  // ---------------------------------------------------------------------
  // Counts over the whole log

  /** outcomes.filter(o => o.status === st).length */
  function Count(os: seq<Outcome>, st: Status): nat
  {
    if os == [] then 0 else Count(os[..|os| - 1], st) + (if os[|os| - 1].status == st then 1 else 0)
  }

  /** outcomes.filter(o => o.status === "correct" || o.status === "wrong").length */
  function Buzzed(os: seq<Outcome>): nat
  {
    if os == [] then 0
    else
      var s := os[|os| - 1].status;
      Buzzed(os[..|os| - 1]) + (if s == Correct || s == Wrong then 1 else 0)
  }

  /** Every outcome has exactly one status, and the buzzed ones are the correct and the wrong ones. */
  lemma {:induction false} CountsAddUp(os: seq<Outcome>)
    ensures Count(os, Correct) + Count(os, Wrong) + Count(os, Skipped) == |os|
    ensures Buzzed(os) == Count(os, Correct) + Count(os, Wrong)
    decreases |os|
  {
    if os != [] {
      CountsAddUp(os[..|os| - 1]);
    }
  }

  // ---------------------------------------------------------------------
  // Review list

  /** outcomes.filter(o => o.status === "wrong" || o.status === "skipped") */
  function Review(os: seq<Outcome>): seq<Outcome>
  {
    if os == [] then []
    else
      var o := os[|os| - 1];
      Review(os[..|os| - 1]) + (if o.status == Wrong || o.status == Skipped then [o] else [])
  }

  /** The review list is exactly the wrong and skipped outcomes, one entry per such outcome. */
  lemma {:induction false} ReviewMembers(os: seq<Outcome>)
    ensures |Review(os)| == Count(os, Wrong) + Count(os, Skipped)
    ensures forall o :: o in Review(os) <==> o in os && o.status != Correct
    decreases |os|
  {
    if os != [] {
      var init, last := os[..|os| - 1], os[|os| - 1];
      assert os == init + [last];
      ReviewMembers(init);
      assert forall o :: o in os <==> o in init || o == last;
    }
  }

  /** The review list keeps the log's order: reviewing a concatenation concatenates the reviews. */
  lemma {:induction false} ReviewAppend(a: seq<Outcome>, b: seq<Outcome>)
    ensures Review(a + b) == Review(a) + Review(b)
    decreases |b|
  {
    if b == [] {
      assert a + b == a;
    } else {
      var init, last := b[..|b| - 1], b[|b| - 1];
      ReviewAppend(a, init);
      assert (a + b)[..|a + b| - 1] == a + init;
    }
  }

  /** Nothing to review exactly when every outcome was correct. */
  lemma ReviewEmpty(os: seq<Outcome>)
    ensures Review(os) == [] <==> Count(os, Correct) == |os|
  {
    ReviewMembers(os);
    CountsAddUp(os);
  }

  // ---------------------------------------------------------------------
  // Per-category counts (the byCat Map)

  /** The counters of one category: { correct, wrong, skipped, total }. */
  datatype CatStat = CatStat(correct: nat, wrong: nat, skipped: nat, total: nat)

  /** A fresh entry of byCat. */
  const Zero := CatStat(0, 0, 0, 0)

  /** One outcome of the category counted: total goes up, and the counter of its status. */
  function Bump(s: CatStat, st: Status): CatStat
  {
    CatStat(
      s.correct + (if st == Correct then 1 else 0),
      s.wrong + (if st == Wrong then 1 else 0),
      s.skipped + (if st == Skipped then 1 else 0),
      s.total + 1)
  }

  /** The counters byCat holds for cat after reading the outcomes. */
  function Tally(os: seq<Outcome>, cat: string): CatStat
  {
    if os == [] then Zero
    else
      var o := os[|os| - 1];
      var s := Tally(os[..|os| - 1], cat);
      if o.cat == cat then Bump(s, o.status) else s
  }

  /** The outcomes of category cat, in log order. */
  function OfCategory(os: seq<Outcome>, cat: string): seq<Outcome>
  {
    if os == [] then []
    else
      var o := os[|os| - 1];
      OfCategory(os[..|os| - 1], cat) + (if o.cat == cat then [o] else [])
  }

  /** The counters are the status counts and the length of the category's own outcomes. */
  lemma {:induction false} TallyCounts(os: seq<Outcome>, cat: string)
    ensures var of := OfCategory(os, cat);
      Tally(os, cat) == CatStat(Count(of, Correct), Count(of, Wrong), Count(of, Skipped), |of|)
    decreases |os|
  {
    if os != [] {
      var init, o := os[..|os| - 1], os[|os| - 1];
      TallyCounts(init, cat);
      var of := OfCategory(init, cat);
      if o.cat == cat {
        var of' := of + [o];
        assert OfCategory(os, cat) == of';
        assert of'[..|of'| - 1] == of && of'[|of'| - 1] == o;
      } else {
        assert OfCategory(os, cat) == of + [];
        assert of + [] == of;
      }
    }
  }

  /** In every category: correct + wrong + skipped = total. */
  lemma TallyAddsUp(os: seq<Outcome>, cat: string)
    ensures var s := Tally(os, cat); s.correct + s.wrong + s.skipped == s.total
  {
    TallyCounts(os, cat);
    CountsAddUp(OfCategory(os, cat));
  }

  /** The keys of byCat in insertion order: each category once, where its first outcome is. */
  function CatOrder(os: seq<Outcome>): seq<string>
  {
    if os == [] then []
    else
      var order := CatOrder(os[..|os| - 1]);
      var cat := os[|os| - 1].cat;
      if cat in order then order else order + [cat]
  }

  /** The order is without repeats and lists exactly the categories that have outcomes. */
  lemma {:induction false} CatOrderMembers(os: seq<Outcome>)
    ensures Board.Distinct(CatOrder(os))
    ensures forall cat :: cat in CatOrder(os) <==> Tally(os, cat).total > 0
    decreases |os|
  {
    if os != [] {
      CatOrderMembers(os[..|os| - 1]);
    }
  }

  /** A category without outcomes has all counters at zero. */
  lemma TallyAbsent(os: seq<Outcome>, cat: string)
    requires cat !in CatOrder(os)
    ensures Tally(os, cat) == Zero
  {
    CatOrderMembers(os);
    TallyAddsUp(os, cat);
  }

  /** The totals of the categories cats, added up. */
  function TotalOver(os: seq<Outcome>, cats: seq<string>): nat
  {
    if cats == [] then 0 else TotalOver(os, cats[..|cats| - 1]) + Tally(os, cats[|cats| - 1]).total
  }

  lemma {:induction false} TotalOverStep(os: seq<Outcome>, o: Outcome, cats: seq<string>)
    requires Board.Distinct(cats)
    ensures TotalOver(os + [o], cats) == TotalOver(os, cats) + (if o.cat in cats then 1 else 0)
    decreases |cats|
  {
    assert (os + [o])[..|os|] == os;
    if cats != [] {
      var init, last := cats[..|cats| - 1], cats[|cats| - 1];
      assert Board.Distinct(init);
      TotalOverStep(os, o, init);
      assert o.cat in cats <==> o.cat in init || o.cat == last by {
        assert cats == init + [last];
      }
      assert last !in init;
    }
  }

  /** Each outcome is counted in exactly one category: the totals add up to the length of the log. */
  lemma {:induction false} TotalsPartition(os: seq<Outcome>)
    ensures TotalOver(os, CatOrder(os)) == |os|
    decreases |os|
  {
    if os != [] {
      var init, o := os[..|os| - 1], os[|os| - 1];
      assert os == init + [o];
      TotalsPartition(init);
      var order := CatOrder(init);
      CatOrderMembers(init);
      TotalOverStep(init, o, order);
      if o.cat !in order {
        TallyAbsent(init, o.cat);
        assert Tally(os, o.cat).total == 1;
        assert (order + [o.cat])[..|order|] == order;
      }
    }
  }

  /** byCat and its key order are those of the outcomes read so far. */
  ghost predicate TalliesAs(byCat: map<string, CatStat>, order: seq<string>, os: seq<Outcome>)
  {
    && order == CatOrder(os)
    && byCat.Keys == (set c | c in order)
    && (forall cat :: cat in byCat ==> byCat[cat] == Tally(os, cat))
  }

  /** One pass of the byCat loop keeps the Map in step with the outcomes read so far. */
  lemma TallyStep(byCat: map<string, CatStat>, order: seq<string>, os: seq<Outcome>, o: Outcome, s: CatStat)
    requires TalliesAs(byCat, order, os)
    requires s == if o.cat in byCat then byCat[o.cat] else Zero
    ensures TalliesAs(byCat[o.cat := Bump(s, o.status)], if o.cat in byCat then order else order + [o.cat], os + [o])
  {
    assert (os + [o])[..|os|] == os;
    if o.cat !in byCat {
      TallyAbsent(os, o.cat);
    }
  }

  /** The byCat loop of renderResults: one counter record per category, in first-seen order. */
  method TallyByCategory(outcomes: seq<Outcome>) returns (byCat: map<string, CatStat>, order: seq<string>)
    ensures order == CatOrder(outcomes)
    ensures byCat.Keys == set c | c in order
    ensures forall cat :: cat in byCat ==> byCat[cat] == Tally(outcomes, cat)
  {
    byCat, order := map[], [];
    var i := 0;
    while i < |outcomes|
      invariant 0 <= i <= |outcomes|
      invariant TalliesAs(byCat, order, outcomes[..i])
    {
      var o := outcomes[i];
      var s := if o.cat in byCat then byCat[o.cat] else Zero;
      ghost var before, entry := byCat, s;
      if o.cat !in byCat {
        order := order + [o.cat];
      }
      s := s.(total := s.total + 1);
      if o.status == Correct { s := s.(correct := s.correct + 1); }
      if o.status == Wrong { s := s.(wrong := s.wrong + 1); }
      if o.status == Skipped { s := s.(skipped := s.skipped + 1); }
      byCat := byCat[o.cat := s];
      TallyStep(before, CatOrder(outcomes[..i]), outcomes[..i], o, entry);
      assert outcomes[..i + 1] == outcomes[..i] + [o];
      i := i + 1;
    }
    assert outcomes[..|outcomes|] == outcomes;
  }

  // ---------------------------------------------------------------------
  // Category cards and their order

  /** A category card: the counters and attempted = correct + wrong. */
  datatype CatCard = CatCard(cat: string, stat: CatStat, attempted: nat)

  /** The card renderResults makes from a byCat entry. */
  function Card(cat: string, s: CatStat): (c: CatCard)
    ensures c.cat == cat && c.stat == s && c.attempted == s.correct + s.wrong
  {
    CatCard(cat, s, s.correct + s.wrong)
  }

  /** acc = attempted ? correct / attempted : 0, as a numerator and a positive denominator. */
  function Accuracy(c: CatCard): (r: (nat, nat))
    ensures r.1 > 0
    ensures c.attempted == 0 ==> r.0 == 0
    ensures c.attempted > 0 ==> r == (c.stat.correct, c.attempted)
  {
    if c.attempted == 0 then (0, 1) else (c.stat.correct, c.attempted)
  }

  /**
   * The accuracy of a card renderResults makes is a fraction in [0, 1]: 0
   * exactly when no attempt was correct, 1 exactly when there were
   * attempts and none of them was wrong.
   */
  lemma AccuracyOfCard(cat: string, s: CatStat)
    ensures var r := Accuracy(Card(cat, s));
      && r.0 <= r.1
      && (r.0 == 0 <==> s.correct == 0)
      && (r.0 == r.1 <==> s.correct + s.wrong > 0 && s.wrong == 0)
  {
  }

  /** a.acc <= b.acc, by cross-multiplying the fractions. */
  predicate AccLe(a: CatCard, b: CatCard)
  {
    Accuracy(a).0 * Accuracy(b).1 <= Accuracy(b).0 * Accuracy(a).1
  }

  /** Any two cards compare one way or the other. */
  lemma AccLeTotal(a: CatCard, b: CatCard)
    ensures AccLe(a, b) || AccLe(b, a)
  {
  }

  /** The comparison is transitive, so sorting by it is meaningful. */
  lemma AccLeTrans(a: CatCard, b: CatCard, c: CatCard)
    requires AccLe(a, b) && AccLe(b, c)
    ensures AccLe(a, c)
  {
    FractionTrans(Accuracy(a).0, Accuracy(a).1, Accuracy(b).0, Accuracy(b).1, Accuracy(c).0, Accuracy(c).1);
  }

  /** p/q <= r/s and r/s <= t/u give p/q <= t/u, as cross products over positive denominators. */
  lemma FractionTrans(p: nat, q: nat, r: nat, s: nat, t: nat, u: nat)
    requires q > 0 && s > 0 && u > 0
    requires p * s <= r * q && r * u <= t * s
    ensures p * u <= t * q
  {
    MulLe(p * s, r * q, u);
    MulLe(r * u, t * s, q);
    assert (p * u) * s == (p * s) * u;
    assert (r * q) * u == (r * u) * q;
    assert (t * s) * q == (t * q) * s;
    MulCancel(p * u, t * q, s);
  }

  lemma MulLe(x: int, y: int, k: nat)
    requires x <= y
    ensures x * k <= y * k
  {
  }

  lemma MulCancel(x: int, y: int, k: nat)
    requires k > 0 && x * k <= y * k
    ensures x <= y
  {
    if x > y {
      MulLe(y + 1, x, k);
    }
  }

  /** Ascending by accuracy. */
  predicate SortedByAccuracy(cs: seq<CatCard>)
  {
    forall i, j :: 0 <= i < j < |cs| ==> AccLe(cs[i], cs[j])
  }

  /** Puts c before the first card that is not below it. */
  function Insert(c: CatCard, cs: seq<CatCard>): (r: seq<CatCard>)
    ensures |r| == |cs| + 1
  {
    if cs == [] || AccLe(c, cs[0]) then [c] + cs else [cs[0]] + Insert(c, cs[1..])
  }

  lemma {:induction false} InsertPermutation(c: CatCard, cs: seq<CatCard>)
    ensures multiset(Insert(c, cs)) == multiset{c} + multiset(cs)
    decreases |cs|
  {
    if cs != [] && !AccLe(c, cs[0]) {
      InsertPermutation(c, cs[1..]);
      assert cs == [cs[0]] + cs[1..];
    }
  }

  lemma {:induction false} InsertSorted(c: CatCard, cs: seq<CatCard>)
    requires SortedByAccuracy(cs)
    ensures SortedByAccuracy(Insert(c, cs))
    decreases |cs|
  {
    if cs == [] {
    } else if AccLe(c, cs[0]) {
      var r := [c] + cs;
      forall i, j | 0 <= i < j < |r| ensures AccLe(r[i], r[j]) {
        if i == 0 && j > 1 {
          AccLeTrans(c, cs[0], cs[j - 1]);
        }
      }
    } else {
      AccLeTotal(c, cs[0]);
      var rest := Insert(c, cs[1..]);
      InsertSorted(c, cs[1..]);
      InsertPermutation(c, cs[1..]);
      var r := [cs[0]] + rest;
      forall j | 0 <= j < |rest| ensures AccLe(cs[0], rest[j]) {
        assert rest[j] in multiset(rest);
        assert rest[j] == c || rest[j] in cs[1..];
      }
    }
  }

  /** [...].sort((a, b) => a.acc - b.acc) */
  function SortByAccuracy(cs: seq<CatCard>): (r: seq<CatCard>)
    ensures |r| == |cs|
  {
    if cs == [] then [] else Insert(cs[0], SortByAccuracy(cs[1..]))
  }

  /** The sort returns the same cards, ascending by accuracy. */
  lemma {:induction false} SortByAccuracyCorrect(cs: seq<CatCard>)
    ensures SortedByAccuracy(SortByAccuracy(cs))
    ensures multiset(SortByAccuracy(cs)) == multiset(cs)
    decreases |cs|
  {
    if cs != [] {
      SortByAccuracyCorrect(cs[1..]);
      InsertSorted(cs[0], SortByAccuracy(cs[1..]));
      InsertPermutation(cs[0], SortByAccuracy(cs[1..]));
      assert cs == [cs[0]] + cs[1..];
    }
  }

  /** catCards.slice(0, 6): the first six cards, or all of them. */
  function Top(cs: seq<CatCard>): (r: seq<CatCard>)
    ensures |r| == if |cs| < 6 then |cs| else 6
    ensures r == cs[..|r|]
  {
    if |cs| <= 6 then cs else cs[..6]
  }

  /** The cards for the categories with outcomes, in byCat order. */
  function CardsOf(os: seq<Outcome>): (cs: seq<CatCard>)
    ensures |cs| == |CatOrder(os)|
  {
    var order := CatOrder(os);
    seq(|order|, k requires 0 <= k < |order| => Card(order[k], Tally(os, order[k])))
  }

  // ---------------------------------------------------------------------
  // The results screen

  /** What the results screen shows, less its markup. */
  datatype Summary = Summary(
    score: int, buzzed: nat, total: int, correct: nat, wrong: nat, skipped: nat,
    cards: seq<CatCard>, review: seq<Outcome>)

  /** The summary for the outcome log, the board's cell count and the score. */
  function Summarize(os: seq<Outcome>, totalCells: int, score: int): Summary
  {
    Summary(score, Buzzed(os), totalCells, Count(os, Correct), Count(os, Wrong), Count(os, Skipped),
      Top(SortByAccuracy(CardsOf(os))), Review(os))
  }

  /**
   * The screen adds up: every outcome has one status, the buzzed ones are
   * the correct and wrong ones, at most six cards ascending by accuracy,
   * each of a category with outcomes and with its counters adding up, and
   * a review list of the wrong and skipped outcomes.
   */
  lemma SummaryAddsUp(os: seq<Outcome>, totalCells: int, score: int)
    ensures var r := Summarize(os, totalCells, score);
      && r.correct + r.wrong + r.skipped == |os|
      && r.buzzed == r.correct + r.wrong
      && |r.cards| <= 6
      && SortedByAccuracy(r.cards)
      && |r.review| == r.wrong + r.skipped
    ensures forall c :: c in Summarize(os, totalCells, score).cards ==>
      && c.stat == Tally(os, c.cat)
      && c.stat.total > 0
      && c.stat.correct + c.stat.wrong + c.stat.skipped == c.stat.total
      && c.attempted == c.stat.correct + c.stat.wrong
  {
    CountsAddUp(os);
    ReviewMembers(os);
    var all := CardsOf(os);
    var sorted := SortByAccuracy(all);
    SortByAccuracyCorrect(all);
    var top := Top(sorted);
    assert SortedByAccuracy(top);
    CatOrderMembers(os);
    forall c | c in top
      ensures c.stat == Tally(os, c.cat) && c.stat.total > 0
      ensures c.stat.correct + c.stat.wrong + c.stat.skipped == c.stat.total
      ensures c.attempted == c.stat.correct + c.stat.wrong
    {
      assert c in multiset(sorted);
      assert c in all;
      TallyAddsUp(os, c.cat);
    }
  }

  /** renderResults: the counts, the byCat loop, the sorted cards and the review list. */
  method RenderResults(outcomes: seq<Outcome>, totalCells: int, score: int) returns (r: Summary)
    ensures r == Summarize(outcomes, totalCells, score)
  {
    var byCat, order := TallyByCategory(outcomes);
    var catCards := seq(|order|, k requires 0 <= k < |order| => Card(order[k], byCat[order[k]]));
    assert catCards == CardsOf(outcomes);
    r := Summary(score, Buzzed(outcomes), totalCells,
      Count(outcomes, Correct), Count(outcomes, Wrong), Count(outcomes, Skipped),
      Top(SortByAccuracy(catCards)), Review(outcomes));
  }
}
