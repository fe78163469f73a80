/** The home page's resort filter: an order-preserving filter of the
    dataset that keeps a record only when it passes every enabled check. */
module Home {
  import opened Wrappers
  import opened Strings
  import opened Resorts
  import opened FilterPanel

  /** The marker in `outline.status` that means "currently operating". */
  const OperatingMarker: string := "滑走可"

  /** The minimum beginner-course share for the beginner-friendly filter. */
  const BeginnerPercent: int := 30

  /** `resort.outline?.status?.includes("滑走可")`: false when either level
      is missing. */
  predicate IsOperating(r: SkiResort) {
    match r.outline
    case None => false
    case Some(o) =>
      match o.status
      case None => false
      case Some(s) => Includes(s, OperatingMarker)
  }

  /** `resort.yukiMagi?.available`: false when the programme entry is missing. */
  predicate HasYukiMagi(r: SkiResort) {
    match r.yukiMagi
    case None => false
    case Some(y) => y.available
  }

  /** `name.ja` contains the keyword, ignoring ASCII case. */
  predicate NameMatches(r: SkiResort, keyword: string) {
    Includes(Lower(r.name.ja), Lower(keyword))
  }

  /** The filter callback: each enabled check that fails rejects the record,
      in the order the page tests them. */
  predicate Accepts(f: Filters, r: SkiResort)
    ensures Accepts(f, r) <==>
              && (f.status ==> IsOperating(r))
              && (f.yukiMagi ==> HasYukiMagi(r))
              && (f.beginnerFriendly ==> r.courses.beginnersCoursesPercent >= BeginnerPercent)
              && (f.keyword != "" ==> NameMatches(r, f.keyword))
              && r.courses.vertical >= f.minVertical
              && r.courses.numberOfCourses >= f.minCourses
  {
    if f.status && !IsOperating(r) then false
    else if f.yukiMagi && !HasYukiMagi(r) then false
    else if f.beginnerFriendly && r.courses.beginnersCoursesPercent < BeginnerPercent then false
    else if f.keyword != "" && !NameMatches(r, f.keyword) then false
    else if f.minVertical > r.courses.vertical then false
    else if f.minCourses > r.courses.numberOfCourses then false
    else true
  }

  /** `filteredResorts`: the records the criteria accept, in dataset order. */
  function FilterResorts(resorts: seq<SkiResort>, f: Filters): (r: seq<SkiResort>)
    ensures |r| <= |resorts|
    ensures forall x :: x in r ==> x in resorts && Accepts(f, x)
    ensures forall x :: x in resorts && Accepts(f, x) ==> x in r
  {
    if |resorts| == 0 then []
    else (if Accepts(f, resorts[0]) then [resorts[0]] else []) + FilterResorts(resorts[1..], f)
  }

  /** `a` is `b` with some elements removed, the rest in their order. */
  ghost predicate IsSubsequence<T>(a: seq<T>, b: seq<T>)
    decreases |b|
  {
    if |a| == 0 then true
    else if |b| == 0 then false
    else if a[0] == b[0] then IsSubsequence(a[1..], b[1..])
    else IsSubsequence(a, b[1..])
  }

  /** The result keeps the input's order: it is a subsequence of it. */
  lemma {:induction false} FilterIsSubsequence(resorts: seq<SkiResort>, f: Filters)
    ensures IsSubsequence(FilterResorts(resorts, f), resorts)
  {
    if |resorts| > 0 {
      FilterIsSubsequence(resorts[1..], f);
      var rest := FilterResorts(resorts[1..], f);
      if Accepts(f, resorts[0]) {
        assert ([resorts[0]] + rest)[1..] == rest;
      } else {
        assert FilterResorts(resorts, f) == rest;
        SubsequenceDropHead(rest, resorts);
      }
    }
  }

  lemma {:induction false} SubsequenceDropHead<T>(a: seq<T>, b: seq<T>)
    requires |b| > 0 && IsSubsequence(a, b[1..])
    ensures IsSubsequence(a, b)
    decreases |b|, |a|
  {
    if |a| > 0 && a[0] == b[0] {
      SubsequenceTail(a, b[1..]);
    }
  }

  lemma {:induction false} SubsequenceTail<T>(a: seq<T>, b: seq<T>)
    requires |a| > 0 && IsSubsequence(a, b)
    ensures IsSubsequence(a[1..], b)
    decreases |b|, |a|
  {
    if a[0] == b[0] {
      SubsequenceDropHead(a[1..], b);
    } else {
      SubsequenceTail(a, b[1..]);
      SubsequenceDropHead(a[1..], b);
    }
  }

  /** Each record occurs in the result as often as in the input when the
      criteria accept it, and not at all otherwise. */
  lemma {:induction false} FilterCounts(resorts: seq<SkiResort>, f: Filters, x: SkiResort)
    ensures multiset(FilterResorts(resorts, f))[x] ==
            if Accepts(f, x) then multiset(resorts)[x] else 0
  {
    if |resorts| > 0 {
      FilterCounts(resorts[1..], f, x);
      assert resorts == [resorts[0]] + resorts[1..];
    }
  }

  /** The default criteria (the page's initial state) keep every record in order. */
  lemma {:induction false} FilterDefaultIsIdentity(resorts: seq<SkiResort>)
    requires forall x :: x in resorts ==> x.courses.vertical >= 0 && x.courses.numberOfCourses >= 0
    ensures FilterResorts(resorts, Default) == resorts
  {
    if |resorts| > 0 {
      FilterDefaultIsIdentity(resorts[1..]);
      assert resorts == [resorts[0]] + resorts[1..];
    }
  }

  /** Resetting the panel and filtering shows the whole dataset. */
  lemma ResetShowsEverything(resorts: seq<SkiResort>, current: Filters)
    requires forall x :: x in resorts ==> x.courses.vertical >= 0 && x.courses.numberOfCourses >= 0
    ensures FilterResorts(resorts, HandleReset(current)) == resorts
  {
    FilterDefaultIsIdentity(resorts);
  }

  /** With the status check on, every kept record has an outline with a
      status containing the marker; a record lacking either is dropped. */
  lemma StatusFilter(resorts: seq<SkiResort>, f: Filters)
    requires f.status
    ensures forall x :: x in FilterResorts(resorts, f) ==>
              x.outline.Some? && x.outline.value.status.Some? &&
              Includes(x.outline.value.status.value, OperatingMarker)
    ensures forall x :: x in resorts && (x.outline.None? || x.outline.value.status.None?) ==>
              x !in FilterResorts(resorts, f)
  {
  }

  /** With the Yuki-Magi check on, every kept record takes part in the
      programme; a record without a programme entry is dropped. */
  lemma YukiMagiFilter(resorts: seq<SkiResort>, f: Filters)
    requires f.yukiMagi
    ensures forall x :: x in FilterResorts(resorts, f) ==> x.yukiMagi.Some? && x.yukiMagi.value.available
    ensures forall x :: x in resorts && x.yukiMagi.None? ==> x !in FilterResorts(resorts, f)
  {
  }

  /** With the beginner check on, no kept record has a beginner share
      below 30 percent. */
  lemma BeginnerFilter(resorts: seq<SkiResort>, f: Filters)
    requires f.beginnerFriendly
    ensures forall x :: x in FilterResorts(resorts, f) ==> x.courses.beginnersCoursesPercent >= BeginnerPercent
  {
  }

  /** The two thresholds are inclusive: a record exactly at a minimum passes
      that check, and the beginner check passes at exactly 30 percent. */
  lemma ThresholdsInclusive(f: Filters, r: SkiResort)
    requires r.courses.vertical == f.minVertical
    requires r.courses.numberOfCourses == f.minCourses
    requires r.courses.beginnersCoursesPercent == BeginnerPercent
    requires !f.status && !f.yukiMagi && f.keyword == ""
    ensures Accepts(f, r)
  {
  }

  /** The keyword check: an empty keyword constrains nothing; otherwise the
      record is kept exactly when the lowered keyword occurs in the lowered
      name and the other checks pass. */
  lemma KeywordFilter(f: Filters, r: SkiResort)
    ensures Accepts(f, r) <==>
              Accepts(f.(keyword := ""), r) &&
              (f.keyword == "" || Occurs(Lower(r.name.ja), Lower(f.keyword)))
  {
    if f.keyword != "" {
      assert Accepts(f, r) <==> Accepts(f.(keyword := ""), r) && NameMatches(r, f.keyword);
    } else {
      assert f.(keyword := "") == f;
    }
  }

  /** Only the lowered keyword matters: keywords that lower to the same
      string select the same records. */
  lemma {:induction false} KeywordCaseInsensitive(resorts: seq<SkiResort>, f: Filters, k: string)
    requires Lower(k) == Lower(f.keyword)
    ensures FilterResorts(resorts, f.(keyword := k)) == FilterResorts(resorts, f)
  {
    LowerEmpty(k);
    LowerEmpty(f.keyword);
    if |resorts| > 0 {
      KeywordCaseInsensitive(resorts[1..], f, k);
    }
  }

  /** "NISEKO" and "niseko" select the same records. */
  lemma KeywordNiseko(resorts: seq<SkiResort>, f: Filters)
    requires f.keyword == "niseko"
    ensures FilterResorts(resorts, f.(keyword := "NISEKO")) == FilterResorts(resorts, f)
  {
    assert Lower("NISEKO") == "niseko";
    KeywordCaseInsensitive(resorts, f, "NISEKO");
  }

  /** `g` is at least as strict as `f` on every criterion: it enables every
      flag `f` enables, its minimums are no lower, and its lowered keyword
      contains `f`'s (an empty keyword being the weakest). */
  predicate Tightens(g: Filters, f: Filters) {
    && (f.status ==> g.status)
    && (f.yukiMagi ==> g.yukiMagi)
    && (f.beginnerFriendly ==> g.beginnerFriendly)
    && (f.keyword == "" || (g.keyword != "" && Includes(Lower(g.keyword), Lower(f.keyword))))
    && g.minVertical >= f.minVertical
    && g.minCourses >= f.minCourses
  }

  /** A record the stricter criteria accept is accepted by the weaker ones. */
  lemma AcceptsMonotone(g: Filters, f: Filters, r: SkiResort)
    requires Tightens(g, f) && Accepts(g, r)
    ensures Accepts(f, r)
  {
    if f.keyword != "" {
      IncludesTransitive(Lower(r.name.ja), Lower(g.keyword), Lower(f.keyword));
    }
  }

  /** Filtering with the weaker criteria first and the stricter ones second
      is filtering with the stricter ones alone. */
  lemma {:induction false} FilterThenTighter(resorts: seq<SkiResort>, f: Filters, g: Filters)
    requires Tightens(g, f)
    ensures FilterResorts(FilterResorts(resorts, f), g) == FilterResorts(resorts, g)
  {
    if |resorts| > 0 {
      FilterThenTighter(resorts[1..], f, g);
      var x := resorts[0];
      var rest := FilterResorts(resorts[1..], f);
      if Accepts(g, x) {
        AcceptsMonotone(g, f, x);
      }
      if Accepts(f, x) {
        assert FilterResorts(resorts, f) == [x] + rest;
        assert ([x] + rest)[1..] == rest;
      } else {
        assert FilterResorts(resorts, f) == rest;
      }
    }
  }

  /** Tightening any criterion never adds records: the stricter result is a
      subsequence of the weaker one. */
  lemma TighteningNarrows(resorts: seq<SkiResort>, f: Filters, g: Filters)
    requires Tightens(g, f)
    ensures IsSubsequence(FilterResorts(resorts, g), FilterResorts(resorts, f))
    ensures |FilterResorts(resorts, g)| <= |FilterResorts(resorts, f)|
  {
    FilterThenTighter(resorts, f, g);
    FilterIsSubsequence(FilterResorts(resorts, f), g);
  }

  /** Filtering is idempotent. */
  lemma FilterIdempotent(resorts: seq<SkiResort>, f: Filters)
    ensures FilterResorts(FilterResorts(resorts, f), f) == FilterResorts(resorts, f)
  {
    if f.keyword != "" {
      assert OccursAt(Lower(f.keyword), Lower(f.keyword), 0);
    }
    FilterThenTighter(resorts, f, f);
  }

  function SampleResort(id: string, vertical: int, courses: int, beginners: int): SkiResort {
    SkiResort(id, ResortName(id), None, Courses(vertical, courses, beginners), None)
  }

  /** Three resorts A (500 m, 10 courses, 20 %), B (1000 m, 20, 40 %) and
      C (1500 m, 5, 50 %) with a 800 m minimum and the beginner check keep
      B and C: the course minimum stays at its default of 0. */
  lemma SampleScenario()
    ensures var a := SampleResort("A", 500, 10, 20);
            var b := SampleResort("B", 1000, 20, 40);
            var c := SampleResort("C", 1500, 5, 50);
            FilterResorts([a, b, c], Default.(minVertical := 800, beginnerFriendly := true)) == [b, c]
  {
    var a := SampleResort("A", 500, 10, 20);
    var b := SampleResort("B", 1000, 20, 40);
    var c := SampleResort("C", 1500, 5, 50);
    var f := Default.(minVertical := 800, beginnerFriendly := true);
    assert !Accepts(f, a) && Accepts(f, b) && Accepts(f, c);
    assert [a, b, c][1..] == [b, c];
    assert [b, c][1..] == [c];
    assert FilterResorts([c], f) == [c];
    assert FilterResorts([b, c], f) == [b, c];
  }
}
