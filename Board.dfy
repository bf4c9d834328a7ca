/**
 * Board building: which clues may appear on a board (eligibleForBoard),
 * the bucketing of clues by category and value (groupByCategoryAndValue),
 * the copy-and-swap shuffle, and the choice of categories and clues that
 * buildBoard makes. Math.random is replaced by caller-supplied draws, so
 * every property below holds for every sequence of random numbers.
 */
module Board {
  import opened Wrappers
  import opened Text

  /** The dollar ladder of a column, top to bottom. */
  const VALUES: seq<int> := [200, 400, 600, 800, 1000]

  /** A clue of the bank, after import normalisation. */
  datatype Clue = Clue(id: string, round: string, category: string, value: int, clue: string, response: string)

  /** A board column: its name, one clue per ladder value, and the values already played. */
  datatype BoardCategory = BoardCategory(name: string, cluesByValue: map<int, Clue>, usedValues: set<int>)

  /** The two errors buildBoard throws. */
  datatype BoardError = EmptyDataset | InsufficientCategories(wanted: int, found: int)

  predicate Distinct<T(==)>(s: seq<T>)
  {
    forall i, j :: 0 <= i < j < |s| ==> s[i] != s[j]
  }

  // ---------------------------------------------------------------------
  // eligibleForBoard

  /** A first-round clue: the round, trimmed and upper-cased, is "1", "J" or "JEOPARDY". */
  predicate FirstRound(round: string)
  {
    var r := ToUpper(Trim(round));
    r == "1" || r == "J" || r == "JEOPARDY"
  }

  /** A clue may go on a board when it is a first-round clue on the ladder with both texts present. */
  predicate Eligible(c: Clue)
  {
    FirstRound(c.round) && c.value in VALUES && c.clue != "" && c.response != ""
  }

  /** Round names are compared after trimming and upper-casing: "j" and " 1 " are first-round names, "2" is not. */
  lemma FirstRoundExamples()
    ensures FirstRound("j") && FirstRound(" 1 ") && FirstRound("J")
    ensures !FirstRound("2")
  {
    TrimOfTrimmed("j");
    TrimOfTrimmed("J");
    TrimOfTrimmed("2");
    assert ToUpper("j") == "J";
    var padded := " 1 ";
    assert SkipSpace(padded, 0) == 1 by {
      assert IsSpace(padded[0]) && !IsSpace(padded[1]);
    }
    assert BackSpace(padded, 1, 3) == 2 by {
      assert IsSpace(padded[2]) && !IsSpace(padded[1]);
    }
    assert padded[1..2] == "1";
  }

  /** Other rounds, off-ladder values and empty texts are refused. */
  lemma EligibleExamples(id: string, cat: string)
    ensures Eligible(Clue(id, "j", cat, 200, "clue", "response"))
    ensures Eligible(Clue(id, " 1 ", cat, 1000, "clue", "response"))
    ensures !Eligible(Clue(id, "2", cat, 400, "clue", "response"))
    ensures !Eligible(Clue(id, "J", cat, 300, "clue", "response"))
    ensures !Eligible(Clue(id, "J", cat, 400, "", "response"))
  {
    FirstRoundExamples();
  }

  /** bank.filter(eligibleForBoard): the eligible clues, in bank order. */
  function EligibleClues(bank: seq<Clue>): (r: seq<Clue>)
    ensures |r| <= |bank|
    ensures forall c :: c in r <==> c in bank && Eligible(c)
    ensures forall k :: 0 <= k < |r| ==> r[k].value in VALUES
  {
    if bank == [] then []
    else
      var rest := EligibleClues(bank[1..]);
      assert forall c :: c in bank <==> c == bank[0] || c in bank[1..];
      if Eligible(bank[0]) then [bank[0]] + rest else rest
  }

  // ---------------------------------------------------------------------
  // groupByCategoryAndValue

  /** The grouping key: the category as normalizeCategory leaves it (trimmed, case kept). */
  function Key(c: Clue): string
  {
    NormalizeCategory(c.category)
  }

  /** The keys of the grouping Map in insertion order: each category once, where it first appears. */
  function CategoryOrder(clues: seq<Clue>): (order: seq<string>)
    ensures Distinct(order)
  {
    if clues == [] then []
    else
      var o := CategoryOrder(clues[..|clues| - 1]);
      var k := Key(clues[|clues| - 1]);
      if k in o then o else o + [k]
  }

  lemma CategoryOrderStep(p: seq<Clue>, c: Clue)
    ensures var o := CategoryOrder(p);
      CategoryOrder(p + [c]) == if Key(c) in o then o else o + [Key(c)]
  {
    assert (p + [c])[..|p|] == p;
  }

  /** The order lists exactly the keys of the clues. */
  lemma {:induction false} CategoryOrderKeys(clues: seq<Clue>)
    ensures forall c :: c in clues ==> Key(c) in CategoryOrder(clues)
    ensures forall k :: k in CategoryOrder(clues) ==> exists c :: c in clues && Key(c) == k
    decreases |clues|
  {
    if clues != [] {
      var p, last := clues[..|clues| - 1], clues[|clues| - 1];
      assert clues == p + [last];
      CategoryOrderKeys(p);
      assert forall c :: c in clues <==> c in p || c == last;
    }
  }

  /** The bucket of category cat and value v: those clues, in input order. */
  function Bucket(clues: seq<Clue>, cat: string, v: int): (b: seq<Clue>)
    ensures |b| <= |clues|
  {
    if clues == [] then []
    else
      var last := clues[|clues| - 1];
      Bucket(clues[..|clues| - 1], cat, v) + (if Key(last) == cat && last.value == v then [last] else [])
  }

  /** A bucket holds exactly the clues of its category and value. */
  lemma {:induction false} BucketMembers(clues: seq<Clue>, cat: string, v: int)
    ensures forall c :: c in Bucket(clues, cat, v) <==> c in clues && Key(c) == cat && c.value == v
    decreases |clues|
  {
    if clues != [] {
      var p, last := clues[..|clues| - 1], clues[|clues| - 1];
      assert clues == p + [last];
      BucketMembers(p, cat, v);
      assert forall c :: c in clues <==> c in p || c == last;
    }
  }

  /** A Map from category to a Map from value to clues; the key order is kept beside it. */
  type Grouped = map<string, map<int, seq<Clue>>>

  /** (grouped.get(cat).get(v) || []): a missing bucket reads as empty. */
  function Get(g: Grouped, cat: string, v: int): seq<Clue>
  {
    if cat in g && v in g[cat] then g[cat][v] else []
  }

  /** g and order are the grouping Map of the clues: keys in insertion order, each bucket as Bucket says. */
  ghost predicate GroupsAs(g: Grouped, order: seq<string>, clues: seq<Clue>)
  {
    && order == CategoryOrder(clues)
    && g.Keys == (set k | k in order)
    && BucketsOf(g, clues)
  }

  /** Every (category, value) bucket of g is the Bucket of the clues. */
  ghost predicate BucketsOf(g: Grouped, clues: seq<Clue>)
  {
    forall cat, v :: Get(g, cat, v) == Bucket(clues, cat, v)
  }

  method GroupByCategoryAndValue(clues: seq<Clue>) returns (grouped: Grouped, order: seq<string>)
    ensures order == CategoryOrder(clues)
    ensures grouped.Keys == set k | k in order
    ensures BucketsOf(grouped, clues)
  {
    grouped, order := map[], [];
    var i := 0;
    while i < |clues|
      invariant 0 <= i <= |clues|
      invariant GroupsAs(grouped, order, clues[..i])
    {
      var c := clues[i];
      var cat := Key(c);
      ghost var before, orderBefore := grouped, order;
      // map.set(cat, new Map()) when the key is new, then m = map.get(cat)
      var m := if cat in grouped then grouped[cat] else map[];
      if cat !in grouped {
        order := order + [cat];
      }
      var bucket := if c.value in m then m[c.value] else [];
      grouped := grouped[cat := m[c.value := bucket + [c]]];
      GroupStep(before, orderBefore, clues[..i], c, m, bucket);
      assert clues[..i + 1] == clues[..i] + [c];
      i := i + 1;
    }
    assert clues[..|clues|] == clues;
  }

  /** One pass of the grouping loop keeps the Map and its key order in step with the clues read so far. */
  lemma GroupStep(g: Grouped, order: seq<string>, clues: seq<Clue>, c: Clue, m: map<int, seq<Clue>>, bucket: seq<Clue>)
    requires GroupsAs(g, order, clues)
    requires m == if Key(c) in g then g[Key(c)] else map[]
    requires bucket == if c.value in m then m[c.value] else []
    ensures GroupsAs(g[Key(c) := m[c.value := bucket + [c]]], if Key(c) in g then order else order + [Key(c)], clues + [c])
  {
    var cat := Key(c);
    CategoryOrderStep(clues, c);
    assert cat in g <==> cat in order;
    assert (set k | k in order + [cat]) == (set k | k in order) + {cat};
    BucketsStep(g, clues, c, m, bucket);
  }

  /** The pushed bucket gains c, and every bucket stays the Bucket of the clues read so far. */
  lemma BucketsStep(g: Grouped, clues: seq<Clue>, c: Clue, m: map<int, seq<Clue>>, bucket: seq<Clue>)
    requires BucketsOf(g, clues)
    requires m == if Key(c) in g then g[Key(c)] else map[]
    requires bucket == if c.value in m then m[c.value] else []
    ensures BucketsOf(g[Key(c) := m[c.value := bucket + [c]]], clues + [c])
  {
    var g' := g[Key(c) := m[c.value := bucket + [c]]];
    GetAfterPush(g, Key(c), c, m, bucket);
    forall cat', v' ensures Get(g', cat', v') == Bucket(clues + [c], cat', v') {
      BucketStep(clues, c, cat', v');
    }
  }

  /** m.get(c.value).push(c) on the Map of key cat changes that one bucket only. */
  lemma GetAfterPush(g: Grouped, cat: string, c: Clue, m: map<int, seq<Clue>>, bucket: seq<Clue>)
    requires m == if cat in g then g[cat] else map[]
    requires bucket == if c.value in m then m[c.value] else []
    ensures forall cat', v' ::
      Get(g[cat := m[c.value := bucket + [c]]], cat', v') == Get(g, cat', v') + (if cat' == cat && v' == c.value then [c] else [])
  {
  }

  // Every clue lies in exactly one bucket: the bucket sizes add up to the number of clues.

  /** The sizes of the buckets of cat for the values vs, added up. */
  function ValueSum(clues: seq<Clue>, cat: string, vs: seq<int>): nat
  {
    if vs == [] then 0 else |Bucket(clues, cat, vs[0])| + ValueSum(clues, cat, vs[1..])
  }

  /** The sizes of all buckets of the categories cats for the values vs, added up. */
  function GridSum(clues: seq<Clue>, cats: seq<string>, vs: seq<int>): nat
  {
    if cats == [] then 0 else GridSum(clues, cats[..|cats| - 1], vs) + ValueSum(clues, cats[|cats| - 1], vs)
  }

  lemma BucketStep(clues: seq<Clue>, c: Clue, cat: string, v: int)
    ensures Bucket(clues + [c], cat, v) == Bucket(clues, cat, v) + (if Key(c) == cat && c.value == v then [c] else [])
  {
    assert (clues + [c])[..|clues|] == clues;
  }

  lemma {:induction false} ValueSumStep(clues: seq<Clue>, c: Clue, cat: string, vs: seq<int>)
    requires Distinct(vs)
    ensures ValueSum(clues + [c], cat, vs) == ValueSum(clues, cat, vs) + (if Key(c) == cat && c.value in vs then 1 else 0)
  {
    if vs != [] {
      BucketStep(clues, c, cat, vs[0]);
      ValueSumStep(clues, c, cat, vs[1..]);
      assert c.value in vs <==> c.value == vs[0] || c.value in vs[1..];
      assert vs[0] !in vs[1..];
    }
  }

  lemma {:induction false} GridSumStep(clues: seq<Clue>, c: Clue, cats: seq<string>, vs: seq<int>)
    requires Distinct(cats) && Distinct(vs)
    ensures GridSum(clues + [c], cats, vs) == GridSum(clues, cats, vs) + (if Key(c) in cats && c.value in vs then 1 else 0)
    decreases |cats|
  {
    if cats != [] {
      var init, last := cats[..|cats| - 1], cats[|cats| - 1];
      assert Distinct(init);
      GridSumStep(clues, c, init, vs);
      ValueSumStep(clues, c, last, vs);
      assert Key(c) in cats <==> Key(c) in init || Key(c) == last by {
        assert cats == init + [last];
      }
      assert last !in init;
    }
  }

  /** A category that never occurs has empty buckets. */
  lemma {:induction false} BucketAbsent(clues: seq<Clue>, cat: string, v: int)
    requires cat !in CategoryOrder(clues)
    ensures Bucket(clues, cat, v) == []
    decreases |clues|
  {
    if clues != [] {
      var p, last := clues[..|clues| - 1], clues[|clues| - 1];
      assert clues == p + [last];
      CategoryOrderStep(p, last);
      BucketAbsent(p, cat, v);
    }
  }

  lemma {:induction false} ValueSumAbsent(clues: seq<Clue>, cat: string, vs: seq<int>)
    requires cat !in CategoryOrder(clues)
    ensures ValueSum(clues, cat, vs) == 0
  {
    if vs != [] {
      ValueSumAbsent(clues, cat, vs[1..]);
      BucketAbsent(clues, cat, vs[0]);
    }
  }

  /**
   * With every value among the distinct values vs, the buckets of all the
   * categories partition the clues: their sizes add up to |clues|.
   */
  lemma {:induction false} BucketsPartition(clues: seq<Clue>, vs: seq<int>)
    requires Distinct(vs)
    requires forall c :: c in clues ==> c.value in vs
    ensures GridSum(clues, CategoryOrder(clues), vs) == |clues|
    decreases |clues|
  {
    if clues != [] {
      var p, c := clues[..|clues| - 1], clues[|clues| - 1];
      assert clues == p + [c];
      assert forall x :: x in p ==> x in clues;
      BucketsPartition(p, vs);
      var o := CategoryOrder(p);
      GridSumStep(p, c, o, vs);
      if Key(c) !in o {
        ValueSumAbsent(p, Key(c), vs);
        ValueSumStep(p, c, Key(c), vs);
        assert CategoryOrder(clues) == o + [Key(c)];
        assert (o + [Key(c)])[..|o|] == o;
      }
    }
  }

  // ---------------------------------------------------------------------
  // Complete categories

  /** A category has at least one clue for every ladder value. */
  predicate IsComplete(clues: seq<Clue>, cat: string)
  {
    forall v :: v in VALUES ==> |Bucket(clues, cat, v)| > 0
  }

  /** The complete categories among order, in that order. */
  function CompleteIn(clues: seq<Clue>, order: seq<string>): (r: seq<string>)
    ensures |r| <= |order|
  {
    if order == [] then []
    else
      var r := CompleteIn(clues, order[..|order| - 1]);
      var last := order[|order| - 1];
      if IsComplete(clues, last) then r + [last] else r
  }

  /** CompleteIn keeps exactly the complete categories of order, and keeps them distinct. */
  lemma {:induction false} CompleteInMembers(clues: seq<Clue>, order: seq<string>)
    ensures forall k :: k in CompleteIn(clues, order) <==> k in order && IsComplete(clues, k)
    ensures Distinct(order) ==> Distinct(CompleteIn(clues, order))
    decreases |order|
  {
    if order != [] {
      var init, last := order[..|order| - 1], order[|order| - 1];
      assert order == init + [last];
      CompleteInMembers(clues, init);
      assert forall k :: k in order <==> k in init || k == last;
      if Distinct(order) {
        assert Distinct(init);
        assert last !in init;
      }
    }
  }

  /** The categories, in Map order, that buildBoard may put on a board. */
  function CompleteCategories(clues: seq<Clue>): (r: seq<string>)
    ensures Distinct(r)
    ensures forall k :: k in r <==> IsComplete(clues, k) && exists c :: c in clues && Key(c) == k
  {
    CategoryOrderKeys(clues);
    CompleteInMembers(clues, CategoryOrder(clues));
    CompleteIn(clues, CategoryOrder(clues))
  }

  // ---------------------------------------------------------------------
  // shuffle

  /** Exchange the elements at i and j. */
  function Swap<T>(s: seq<T>, i: nat, j: nat): (r: seq<T>)
    requires i < |s| && j < |s|
    ensures |r| == |s|
  {
    s[i := s[j]][j := s[i]]
  }

  lemma SwapMultiset<T>(s: seq<T>, i: nat, j: nat)
    requires i < |s| && j < |s|
    ensures multiset(Swap(s, i, j)) == multiset(s)
  {
    var t := s[i := s[j]];
    assert multiset(t) == multiset(s) - multiset{s[i]} + multiset{s[j]};
    assert multiset(t[j := s[i]]) == multiset(t) - multiset{t[j]} + multiset{s[i]};
  }

  /** The passes of the shuffle loop for i, i - 1, ..., 1: pass i swaps i with draw(i) mod (i + 1). */
  function Passes<T>(s: seq<T>, i: int, draw: nat -> nat): (r: seq<T>)
    requires i < |s|
    ensures |r| == |s|
    decreases i
  {
    if i <= 0 then s else Passes(Swap(s, i, draw(i) % (i + 1)), i - 1, draw)
  }

  lemma {:induction false} PassesPermutation<T>(s: seq<T>, i: int, draw: nat -> nat)
    requires i < |s|
    ensures multiset(Passes(s, i, draw)) == multiset(s)
    decreases i
  {
    if i > 0 {
      var j := draw(i) % (i + 1);
      SwapMultiset(s, i, j);
      PassesPermutation(Swap(s, i, j), i - 1, draw);
    }
  }

  /** The result of shuffle(arr) when Math.random() * (i + 1) rounds down to draw(i) mod (i + 1). */
  function Shuffled<T>(s: seq<T>, draw: nat -> nat): (r: seq<T>)
    ensures |r| == |s| && multiset(r) == multiset(s)
  {
    PassesPermutation(s, |s| - 1, draw);
    Passes(s, |s| - 1, draw)
  }

  /** shuffle: copy the input into a fresh array and run Fisher-Yates on the copy. */
  method Shuffle<T>(arr: seq<T>, draw: nat -> nat) returns (r: seq<T>)
    ensures r == Shuffled(arr, draw)
    ensures |r| == |arr| && multiset(r) == multiset(arr)
  {
    var a := new T[|arr|](k requires 0 <= k < |arr| => arr[k]);
    assert a[..] == arr;
    var i: int := a.Length - 1;
    while i > 0
      invariant -1 <= i < a.Length
      invariant Passes(a[..], i, draw) == Shuffled(arr, draw)
      decreases i
    {
      var j := draw(i) % (i + 1);
      ghost var before := a[..];
      a[i], a[j] := a[j], a[i];
      assert a[..] == Swap(before, i, j);
      i := i - 1;
    }
    r := a[..];
  }

  /** A permutation of a sequence without repeats has no repeats, and holds the same elements. */
  lemma PermutationDistinct<T>(s: seq<T>, r: seq<T>)
    requires multiset(r) == multiset(s) && Distinct(s)
    ensures Distinct(r)
    ensures forall x :: x in r <==> x in s
  {
    forall x ensures x in r <==> x in s {
      assert x in r <==> x in multiset(r);
      assert x in s <==> x in multiset(s);
    }
    forall i, j | 0 <= i < j < |r| ensures r[i] != r[j] {
      if r[i] == r[j] {
        TwiceCounted(r, i, j);
        DistinctCount(s, r[i]);
        assert false;
      }
    }
  }

  lemma TwiceCounted<T>(r: seq<T>, i: nat, j: nat)
    requires i < j < |r| && r[i] == r[j]
    ensures multiset(r)[r[i]] >= 2
  {
    assert r == r[..j] + r[j..];
    assert r[i] in r[..j];
    assert r[j] in r[j..];
    assert multiset(r) == multiset(r[..j]) + multiset(r[j..]);
  }

  lemma {:induction false} DistinctCount<T>(s: seq<T>, x: T)
    requires Distinct(s)
    ensures multiset(s)[x] <= 1
  {
    if s != [] {
      assert Distinct(s[1..]);
      DistinctCount(s[1..], x);
      assert s == [s[0]] + s[1..];
      assert multiset(s) == multiset{s[0]} + multiset(s[1..]);
      if x == s[0] {
        assert x !in s[1..];
      }
    }
  }

  // ---------------------------------------------------------------------
  // buildBoard

  /** clampNum(parseInt(categoriesCount), 3, 6, 4): NaN is None. */
  function CategoryCount(input: Option<int>): (n: int)
    ensures 3 <= n <= 6
    ensures input.None? ==> n == 4
    ensures input.Some? && 3 <= input.value <= 6 ==> n == input.value
  {
    ClampNum(input, 3, 6, 4)
  }

  /** options[Math.floor(Math.random() * options.length)], with the draw reduced mod the length. */
  function Pick(options: seq<Clue>, draw: nat): (c: Clue)
    requires |options| > 0
    ensures c in options
  {
    options[draw % |options|]
  }

  /** Category name has a clue for each of the values vs. */
  predicate FilledFor(clues: seq<Clue>, name: string, vs: seq<int>)
  {
    forall v :: v in vs ==> |Bucket(clues, name, v)| > 0
  }

  /** The clue drawn for each of the values vs from the buckets of category name, column k, set value by value. */
  function ColumnMap(clues: seq<Clue>, name: string, k: nat, clueDraw: (nat, int) -> nat, vs: seq<int>): (m: map<int, Clue>)
    requires FilledFor(clues, name, vs)
    decreases |vs|
  {
    if vs == [] then map[]
    else
      var init, v := vs[..|vs| - 1], vs[|vs| - 1];
      assert forall w :: w in init ==> w in vs;
      ColumnMap(clues, name, k, clueDraw, init)[v := Pick(Bucket(clues, name, v), clueDraw(k, v))]
  }

  /** The map has a key per value of vs, holding the clue drawn from that value's bucket. */
  lemma {:induction false} ColumnMapValues(clues: seq<Clue>, name: string, k: nat, clueDraw: (nat, int) -> nat, vs: seq<int>)
    requires FilledFor(clues, name, vs)
    ensures ColumnMap(clues, name, k, clueDraw, vs).Keys == set v | v in vs
    ensures forall v :: v in vs ==> ColumnMap(clues, name, k, clueDraw, vs)[v] == Pick(Bucket(clues, name, v), clueDraw(k, v))
    decreases |vs|
  {
    if vs != [] {
      var init, v := vs[..|vs| - 1], vs[|vs| - 1];
      assert vs == init + [v];
      assert forall w :: w in vs <==> w in init || w == v;
      ColumnMapValues(clues, name, k, clueDraw, init);
    }
  }

  /** The column buildBoard makes for category name in position k. */
  function Column(clues: seq<Clue>, name: string, k: nat, clueDraw: (nat, int) -> nat): (col: BoardCategory)
    requires IsComplete(clues, name)
    ensures col.name == name && col.usedValues == {}
    ensures col.cluesByValue.Keys == set v | v in VALUES
    ensures forall v :: v in VALUES ==> col.cluesByValue[v] in Bucket(clues, name, v)
  {
    ColumnMapValues(clues, name, k, clueDraw, VALUES);
    BoardCategory(name, ColumnMap(clues, name, k, clueDraw, VALUES), {})
  }

  /** A board for the clues with n columns: distinct complete categories, one clue of its own bucket per value, nothing played. */
  predicate IsBoardFor(clues: seq<Clue>, cats: seq<BoardCategory>, n: int)
  {
    && |cats| == n
    && (forall i, j :: 0 <= i < j < |cats| ==> cats[i].name != cats[j].name)
    && (forall k :: 0 <= k < |cats| ==> ColumnFor(clues, cats[k]))
  }

  /** A column of such a board: a complete category, nothing played, one clue of its own bucket per value. */
  predicate ColumnFor(clues: seq<Clue>, col: BoardCategory)
  {
    && col.name in CompleteCategories(clues)
    && col.usedValues == {}
    && col.cluesByValue.Keys == (set v | v in VALUES)
    && (forall v :: v in VALUES ==> col.cluesByValue[v] in Bucket(clues, col.name, v))
  }

  /** shuffle(completeCats).slice(0, nCats): n distinct complete categories. */
  function Picked(clues: seq<Clue>, n: nat, catDraw: nat -> nat): (picked: seq<string>)
    requires n <= |CompleteCategories(clues)|
    ensures |picked| == n && Distinct(picked)
    ensures forall x :: x in picked ==> x in CompleteCategories(clues)
  {
    var complete := CompleteCategories(clues);
    var s := Shuffled(complete, catDraw);
    PermutationDistinct(complete, s);
    s[..n]
  }

  /** The columns for the categories picked, the k-th in position k. */
  function Columns(clues: seq<Clue>, picked: seq<string>, clueDraw: (nat, int) -> nat): (cats: seq<BoardCategory>)
    requires forall x :: x in picked ==> IsComplete(clues, x)
    ensures |cats| == |picked|
    decreases |picked|
  {
    if picked == [] then []
    else
      var init := picked[..|picked| - 1];
      assert forall x :: x in init ==> x in picked;
      Columns(clues, init, clueDraw) + [Column(clues, picked[|picked| - 1], |picked| - 1, clueDraw)]
  }

  /** Column k of the board is the column of the k-th picked category. */
  lemma {:induction false} ColumnsAt(clues: seq<Clue>, picked: seq<string>, clueDraw: (nat, int) -> nat, k: nat)
    requires forall x :: x in picked ==> IsComplete(clues, x)
    requires k < |picked|
    ensures Columns(clues, picked, clueDraw)[k] == Column(clues, picked[k], k, clueDraw)
    decreases |picked|
  {
    if k < |picked| - 1 {
      var init := picked[..|picked| - 1];
      assert forall x :: x in init ==> x in picked;
      ColumnsAt(clues, init, clueDraw, k);
    }
  }

  /** One more picked category adds its column at the end. */
  lemma ColumnsStep(clues: seq<Clue>, picked: seq<string>, k: nat, clueDraw: (nat, int) -> nat)
    requires k < |picked|
    requires forall x :: x in picked ==> IsComplete(clues, x)
    ensures forall x :: x in picked[..k] ==> IsComplete(clues, x)
    ensures Columns(clues, picked[..k + 1], clueDraw) == Columns(clues, picked[..k], clueDraw) + [Column(clues, picked[k], k, clueDraw)]
  {
    assert forall x :: x in picked[..k] ==> x in picked;
    assert forall x :: x in picked[..k + 1] ==> x in picked;
    assert picked[..k + 1][..k] == picked[..k];
  }

  /** The board buildBoard chooses: column k is the k-th picked category, with a drawn clue per value. */
  function Plan(clues: seq<Clue>, n: nat, catDraw: nat -> nat, clueDraw: (nat, int) -> nat): (cats: seq<BoardCategory>)
    requires n <= |CompleteCategories(clues)|
    ensures |cats| == n
  {
    Columns(clues, Picked(clues, n, catDraw), clueDraw)
  }

  /** Whatever the draws, the chosen board is a board for the clues. */
  lemma PlanIsBoard(clues: seq<Clue>, n: nat, catDraw: nat -> nat, clueDraw: (nat, int) -> nat)
    requires n <= |CompleteCategories(clues)|
    ensures IsBoardFor(clues, Plan(clues, n, catDraw, clueDraw), n)
  {
    var picked := Picked(clues, n, catDraw);
    var cats := Plan(clues, n, catDraw, clueDraw);
    forall k | 0 <= k < n
      ensures cats[k].name == picked[k] && ColumnFor(clues, cats[k])
    {
      ColumnsAt(clues, picked, clueDraw, k);
    }
  }

  /** VALUES.every(v => (m.get(v) || []).length > 0) for the Map of cat. */
  predicate HasEveryValue(grouped: Grouped, cat: string)
  {
    forall v :: v in VALUES ==> |Get(grouped, cat, v)| > 0
  }

  /** Reading the grouping Map answers completeness as the buckets do. */
  lemma HasEveryValueIff(grouped: Grouped, clues: seq<Clue>, cat: string)
    requires BucketsOf(grouped, clues)
    ensures HasEveryValue(grouped, cat) <==> IsComplete(clues, cat)
  {
  }

  /** The for-of loop over grouped.entries() that collects the complete categories. */
  method CollectComplete(grouped: Grouped, order: seq<string>, ghost clues: seq<Clue>) returns (completeCats: seq<string>)
    requires BucketsOf(grouped, clues)
    ensures completeCats == CompleteIn(clues, order)
  {
    completeCats := [];
    var i := 0;
    while i < |order|
      invariant 0 <= i <= |order|
      invariant completeCats == CompleteIn(clues, order[..i])
    {
      var cat := order[i];
      HasEveryValueIff(grouped, clues, cat);
      assert order[..i + 1][..i] == order[..i];
      if HasEveryValue(grouped, cat) {
        completeCats := completeCats + [cat];
      }
      i := i + 1;
    }
    assert order[..|order|] == order;
  }

  /** The for-of loop over VALUES that fills one column's Map with a drawn clue per value. */
  method FillColumn(grouped: Grouped, name: string, k: nat, clueDraw: (nat, int) -> nat, ghost clues: seq<Clue>)
    returns (col: BoardCategory)
    requires BucketsOf(grouped, clues)
    requires IsComplete(clues, name)
    ensures col == Column(clues, name, k, clueDraw)
  {
    var cluesByValue := map[];
    var t := 0;
    while t < |VALUES|
      invariant 0 <= t <= |VALUES|
      invariant FilledFor(clues, name, VALUES[..t])
      invariant cluesByValue == ColumnMap(clues, name, k, clueDraw, VALUES[..t])
    {
      var v := VALUES[t];
      var options := Get(grouped, name, v);
      FillStep(clues, name, k, clueDraw, t);
      cluesByValue := cluesByValue[v := options[clueDraw(k, v) % |options|]];
      t := t + 1;
    }
    assert VALUES[..|VALUES|] == VALUES;
    col := BoardCategory(name, cluesByValue, {});
  }

  /** Setting one more value's clue extends the map of the values before it. */
  lemma ColumnMapSnoc(clues: seq<Clue>, name: string, k: nat, clueDraw: (nat, int) -> nat, vs: seq<int>, v: int)
    requires FilledFor(clues, name, vs + [v])
    ensures FilledFor(clues, name, vs) && |Bucket(clues, name, v)| > 0
    ensures ColumnMap(clues, name, k, clueDraw, vs + [v])
      == ColumnMap(clues, name, k, clueDraw, vs)[v := Pick(Bucket(clues, name, v), clueDraw(k, v))]
  {
    assert v in vs + [v];
    assert forall w :: w in vs ==> w in vs + [v];
    assert (vs + [v])[..|vs|] == vs;
  }

  /** One pass of the loop over VALUES draws from a non-empty bucket and sets one more key. */
  lemma FillStep(clues: seq<Clue>, name: string, k: nat, clueDraw: (nat, int) -> nat, t: nat)
    requires t < |VALUES| && IsComplete(clues, name)
    ensures FilledFor(clues, name, VALUES[..t]) && FilledFor(clues, name, VALUES[..t + 1])
    ensures |Bucket(clues, name, VALUES[t])| > 0
    ensures ColumnMap(clues, name, k, clueDraw, VALUES[..t + 1])
      == ColumnMap(clues, name, k, clueDraw, VALUES[..t])[VALUES[t] := Pick(Bucket(clues, name, VALUES[t]), clueDraw(k, VALUES[t]))]
  {
    var vs, v := VALUES[..t], VALUES[t];
    assert VALUES[..t + 1] == vs + [v];
    assert forall w :: w in vs + [v] ==> w in VALUES;
    ColumnMapSnoc(clues, name, k, clueDraw, vs, v);
  }

  /** The for-of loop over the picked categories that builds the board's columns. */
  method FillColumns(grouped: Grouped, picked: seq<string>, clueDraw: (nat, int) -> nat, ghost clues: seq<Clue>)
    returns (cats: seq<BoardCategory>)
    requires BucketsOf(grouped, clues)
    requires forall x :: x in picked ==> IsComplete(clues, x)
    ensures cats == Columns(clues, picked, clueDraw)
  {
    cats := [];
    var k := 0;
    while k < |picked|
      invariant 0 <= k <= |picked|
      invariant forall x :: x in picked[..k] ==> IsComplete(clues, x)
      invariant cats == Columns(clues, picked[..k], clueDraw)
    {
      ColumnsStep(clues, picked, k, clueDraw);
      var col := FillColumn(grouped, picked[k], k, clueDraw, clues);
      cats := cats + [col];
      k := k + 1;
    }
    assert picked[..|picked|] == picked;
  }

  /**
   * What buildBoard ends with for a bank and a count field: an empty bank,
   * too few complete categories, or the board Plan chooses for the clamped
   * count.
   */
  function BoardFor(bank: seq<Clue>, countInput: Option<int>, catDraw: nat -> nat, clueDraw: (nat, int) -> nat)
    : Result<seq<BoardCategory>, BoardError>
  {
    var n, found := CategoryCount(countInput), |CompleteCategories(EligibleClues(bank))|;
    if bank == [] then Failure(EmptyDataset)
    else if found < n then Failure(InsufficientCategories(n, found))
    else Success(Plan(EligibleClues(bank), n, catDraw, clueDraw))
  }

  /**
   * The errors of buildBoard and their conditions, and the board it
   * builds otherwise: n distinct complete categories, nothing used, one
   * clue per ladder value drawn from the matching bucket.
   */
  lemma BoardForCases(bank: seq<Clue>, countInput: Option<int>, catDraw: nat -> nat, clueDraw: (nat, int) -> nat)
    ensures var r := BoardFor(bank, countInput, catDraw, clueDraw);
      bank == [] <==> r == Failure(EmptyDataset)
    ensures var r, n, found := BoardFor(bank, countInput, catDraw, clueDraw), CategoryCount(countInput), |CompleteCategories(EligibleClues(bank))|;
      bank != [] ==> (r.Failure? <==> found < n) && (r.Failure? ==> r.error == InsufficientCategories(n, found))
    ensures var r, n := BoardFor(bank, countInput, catDraw, clueDraw), CategoryCount(countInput);
      r.Success? ==> IsBoardFor(EligibleClues(bank), r.value, n)
  {
    var n := CategoryCount(countInput);
    if bank != [] && n <= |CompleteCategories(EligibleClues(bank))| {
      PlanIsBoard(EligibleClues(bank), n, catDraw, clueDraw);
    }
  }

  /**
   * buildBoard without its effects on the page: the column count is
   * clamped first; an empty bank and too few complete categories are
   * errors; otherwise the board of Plan.
   */
  method PlanBoard(bank: seq<Clue>, countInput: Option<int>, catDraw: nat -> nat, clueDraw: (nat, int) -> nat)
    returns (r: Result<seq<BoardCategory>, BoardError>)
    ensures r == BoardFor(bank, countInput, catDraw, clueDraw)
  {
    var nCats := CategoryCount(countInput);
    if |bank| == 0 {
      return Failure(EmptyDataset);
    }
    var eligible := EligibleClues(bank);
    var grouped, order := GroupByCategoryAndValue(eligible);
    var completeCats := CollectComplete(grouped, order, eligible);

    if |completeCats| < nCats {
      return Failure(InsufficientCategories(nCats, |completeCats|));
    }

    var shuffled := Shuffle(completeCats, catDraw);
    var pickedCats := shuffled[..nCats];
    assert pickedCats == Picked(eligible, nCats, catDraw);
    var cats := FillColumns(grouped, pickedCats, clueDraw, eligible);
    return Success(cats);
  }
}
