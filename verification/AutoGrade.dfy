/**
 Scoring a quiz: the weighted share of the questions answered exactly, scaled to the assignment's maximum.

 Points are hundredths, as the two-decimal columns store them; the scaled score is an exact rational, and the
 stored grade is that rational rounded to hundredths.
 */
module AutoGrade {
  import opened Prelude

  datatype Choice = Choice(id: int, isCorrect: bool)
  datatype Question = Question(id: int, points: int, choices: seq<Choice>)

  type Quiz = seq<Question>
  type Answers = map<int, seq<int>>

  function Correct(q: Question): set<int> {
    set c | c in q.choices && c.isCorrect :: c.id
  }

  function Selected(q: Question, answers: Answers): set<int> {
    if q.id in answers then set a | a in answers[q.id] else {}
  }

  predicate Exact(q: Question, answers: Answers) {
    Selected(q, answers) != {} && Selected(q, answers) == Correct(q)
  }

  function Possible(quiz: Quiz): int {
    if quiz == [] then 0 else Possible(quiz[..|quiz| - 1]) + quiz[|quiz| - 1].points
  }

  function Earned(quiz: Quiz, answers: Answers): int {
    if quiz == [] then 0
    else Earned(quiz[..|quiz| - 1], answers)
         + (if Exact(quiz[|quiz| - 1], answers) then quiz[|quiz| - 1].points else 0)
  }

  function Scale(earned: int, possible: int, max: int): real {
    if possible == 0 then 0.0 else earned as real / possible as real * max as real
  }

  function Score(quiz: Quiz, answers: Answers, max: int): real {
    Scale(Earned(quiz, answers), Possible(quiz), max)
  }

  // Rounding half up to whole hundredths, as a two-decimal column does with a non-negative value.
  function Stored(x: real): int {
    (x + 0.5).Floor
  }

  ghost predicate NonNegative(quiz: Quiz) {
    forall q :: q in quiz ==> q.points >= 0
  }

  /** The grading loop. */
  method Grade(quiz: Quiz, answers: Answers, max: int) returns (scaled: real)
    ensures scaled == Score(quiz, answers, max)
  {
    var earned, possible := 0, 0;
    for i := 0 to |quiz|
      invariant possible == Possible(quiz[..i])
      invariant earned == Earned(quiz[..i], answers)
    {
      var q := quiz[i];
      assert quiz[..i + 1][..i] == quiz[..i];
      possible := possible + q.points;
      var correct := set c | c in q.choices && c.isCorrect :: c.id;
      var selected := if q.id in answers then set a | a in answers[q.id] else {};
      if selected != {} && selected == correct {
        earned := earned + q.points;
      }
    }
    assert quiz[..|quiz|] == quiz;
    scaled := if possible != 0 then earned as real / possible as real * max as real else 0.0;
  }

  // ------------------------------------------------------------------ what earns the points

  // Every pick is a choice marked correct, and every choice marked correct is picked.
  ghost predicate RightPicks(q: Question, picks: seq<int>) {
    && (forall a :: a in picks ==> exists c :: c in q.choices && c.id == a && c.isCorrect)
    && (forall c :: c in q.choices && c.isCorrect ==> c.id in picks)
  }

  ghost predicate AnsweredRight(q: Question, answers: Answers) {
    q.id in answers && answers[q.id] != [] && RightPicks(q, answers[q.id])
  }

  lemma PicksAreCorrectIff(q: Question, picks: seq<int>)
    ensures (set a | a in picks) == Correct(q) <==> RightPicks(q, picks)
  {
    if (set a | a in picks) == Correct(q) {
      forall a | a in picks ensures exists c :: c in q.choices && c.id == a && c.isCorrect {
        assert a in Correct(q);
      }
      forall c | c in q.choices && c.isCorrect ensures c.id in picks {
        assert c.id in Correct(q);
      }
    }
    if RightPicks(q, picks) {
      forall a ensures a in picks <==> a in Correct(q) { }
    }
  }

  lemma ExactIff(q: Question, answers: Answers)
    ensures Exact(q, answers) <==> AnsweredRight(q, answers)
  {
    if q.id in answers {
      var picks := answers[q.id];
      PicksAreCorrectIff(q, picks);
      if picks != [] { assert picks[0] in Selected(q, answers); }
    }
  }

  ghost function TotalPoints(quiz: Quiz): int {
    if quiz == [] then 0 else quiz[0].points + TotalPoints(quiz[1..])
  }

  ghost function RightPoints(quiz: Quiz, answers: Answers): int {
    if quiz == [] then 0
    else (if AnsweredRight(quiz[0], answers) then quiz[0].points else 0) + RightPoints(quiz[1..], answers)
  }

  lemma {:induction false} PointsAdd(quiz: Quiz, answers: Answers)
    ensures Possible(quiz) == TotalPoints(quiz) && Earned(quiz, answers) == RightPoints(quiz, answers)
  {
    if quiz != [] {
      TakeOut(quiz, answers, 0);
      assert quiz[..0] + quiz[1..] == quiz[1..];
      PointsAdd(quiz[1..], answers);
      ExactIff(quiz[0], answers);
    }
  }

  /** The score is the share of the points that the rightly answered questions carry, of the maximum: an answer earns a
      question's points when it picks all of its correct choices and nothing else, and otherwise none of them. */
  lemma ScoreMeans(quiz: Quiz, answers: Answers, max: int)
    ensures IsShare(Score(quiz, answers, max), RightPoints(quiz, answers), TotalPoints(quiz), max)
  {
    PointsAdd(quiz, answers);
    ScaleIsShare(RightPoints(quiz, answers), TotalPoints(quiz), max);
  }

  // x is to the maximum as the points earned are to the points there are; nothing, if there are none.
  ghost predicate IsShare(x: real, earned: int, possible: int, max: int) {
    if possible == 0 then x == 0.0 else x * possible as real == earned as real * max as real
  }

  lemma ScaleIsShare(earned: int, possible: int, max: int)
    ensures IsShare(Scale(earned, possible, max), earned, possible, max)
  {
    if possible != 0 { ShareTimes(earned as real, possible as real, max as real); }
  }

  lemma ShareTimes(e: real, p: real, m: real)
    requires p != 0.0
    ensures e / p * m * p == e * m
  {
    assert e / p * p == e;
    assert e / p * m * p == e / p * p * m;
  }

  // ------------------------------------------------------------------ bounds

  lemma {:induction false} EarnedWithin(quiz: Quiz, answers: Answers)
    requires NonNegative(quiz)
    ensures 0 <= Earned(quiz, answers) <= Possible(quiz)
  {
    if quiz != [] {
      EarnedWithin(quiz[..|quiz| - 1], answers);
    }
  }

  lemma Times(x: real, y: real, z: real)
    requires x < y && z > 0.0
    ensures x * z < y * z
  {
  }

  lemma Share(a: real, p: real)
    requires p > 0.0
    ensures a / p * p == a
  {
  }

  lemma ShareOrder(a: real, b: real, p: real)
    requires p > 0.0
    ensures a < b <==> a / p < b / p
  {
    Share(a, p);
    Share(b, p);
    if a / p < b / p { Times(a / p, b / p, p); }
    if b / p < a / p { Times(b / p, a / p, p); }
  }

  lemma ShareEnds(p: real)
    requires p > 0.0
    ensures 0.0 / p == 0.0 && p / p == 1.0
  {
  }

  lemma PartsOf(x: real, y: real, m: real)
    requires 0.0 <= x <= y <= 1.0 && m >= 0.0
    ensures 0.0 <= x * m <= y * m <= m
  {
  }

  lemma ScaleMonotone(a: int, b: int, possible: int, max: int)
    requires 0 <= a <= b <= possible && 0 <= max
    ensures 0.0 <= Scale(a, possible, max) <= Scale(b, possible, max) <= max as real
  {
    if possible > 0 {
      var p := possible as real;
      ShareEnds(p);
      ShareOrder(a as real, 0.0, p);
      ShareOrder(b as real, a as real, p);
      ShareOrder(p, b as real, p);
      PartsOf(a as real / p, b as real / p, max as real);
    }
  }

  lemma StoredWithin(x: real, max: int)
    requires 0.0 <= x <= max as real
    ensures 0 <= Stored(x) <= max
    ensures x == Stored(x) as real || x - 0.5 <= Stored(x) as real <= x + 0.5
  {
  }

  /** The score, exact and as stored, lies between nothing and the maximum. */
  lemma ScoreWithin(quiz: Quiz, answers: Answers, max: int)
    requires NonNegative(quiz) && 0 <= max
    ensures 0.0 <= Score(quiz, answers, max) <= max as real
    ensures 0 <= Stored(Score(quiz, answers, max)) <= max
  {
    EarnedWithin(quiz, answers);
    ScaleMonotone(Earned(quiz, answers), Earned(quiz, answers), Possible(quiz), max);
    StoredWithin(Score(quiz, answers, max), max);
  }

  // ------------------------------------------------------------------ what the score ignores

  // The two answer sheets select the same choices for the questions of the quiz.
  ghost predicate SameSelections(quiz: Quiz, a: Answers, b: Answers) {
    forall q :: q in quiz ==> Selected(q, a) == Selected(q, b)
  }

  /** Only the set of choices selected for each of the quiz's questions matters: repeated choices, their order, and
      answers to questions the quiz does not have change nothing. */
  lemma {:induction false} OnlySelectionsMatter(quiz: Quiz, a: Answers, b: Answers, max: int)
    requires SameSelections(quiz, a, b)
    ensures Earned(quiz, a) == Earned(quiz, b) && Score(quiz, a, max) == Score(quiz, b, max)
  {
    if quiz != [] {
      assert quiz[|quiz| - 1] in quiz;
      OnlySelectionsMatter(quiz[..|quiz| - 1], a, b, max);
    }
  }

  lemma {:induction false} TakeOut(quiz: Quiz, answers: Answers, i: nat)
    requires i < |quiz|
    ensures Possible(quiz) == Possible(quiz[..i] + quiz[i + 1..]) + quiz[i].points
    ensures Earned(quiz, answers)
         == Earned(quiz[..i] + quiz[i + 1..], answers) + (if Exact(quiz[i], answers) then quiz[i].points else 0)
  {
    var n := |quiz| - 1;
    var rest := quiz[..i] + quiz[i + 1..];
    if i == n {
      assert rest == quiz[..n];
    } else {
      assert rest[..|rest| - 1] == quiz[..n][..i] + quiz[..n][i + 1..];
      TakeOut(quiz[..n], answers, i);
    }
  }

  lemma WithoutOne<T>(s: seq<T>, i: nat)
    requires i < |s|
    ensures multiset(s[..i] + s[i + 1..]) == multiset(s) - multiset{s[i]}
  {
    assert s == s[..i] + [s[i]] + s[i + 1..];
  }

  lemma MatchFirst<T>(s: seq<T>, u: seq<T>) returns (i: nat)
    requires s != [] && multiset(s) == multiset(u)
    ensures i < |u| && u[i] == s[0] && multiset(s[..0] + s[1..]) == multiset(u[..i] + u[i + 1..])
  {
    assert s[0] in multiset(u);
    i :| i < |u| && u[i] == s[0];
    WithoutOne(s, 0);
    WithoutOne(u, i);
  }

  /** The order of the questions does not matter. */
  lemma {:induction false} OrderDoesNotMatter(quiz: Quiz, shuffled: Quiz, answers: Answers, max: int)
    requires multiset(quiz) == multiset(shuffled)
    ensures Earned(quiz, answers) == Earned(shuffled, answers) && Possible(quiz) == Possible(shuffled)
    ensures Score(quiz, answers, max) == Score(shuffled, answers, max)
    decreases |quiz|
  {
    if quiz == [] {
      assert |multiset(shuffled)| == 0;
    } else {
      var i := MatchFirst(quiz, shuffled);
      TakeOut(quiz, answers, 0);
      TakeOut(shuffled, answers, i);
      OrderDoesNotMatter(quiz[..0] + quiz[1..], shuffled[..i] + shuffled[i + 1..], answers, max);
    }
  }

  // ------------------------------------------------------------------ getting better

  // Everything answered exactly in `a` is answered exactly in `b`.
  ghost predicate NoWorse(quiz: Quiz, a: Answers, b: Answers) {
    forall q :: q in quiz && Exact(q, a) ==> Exact(q, b)
  }

  lemma {:induction false} EarnedMonotone(quiz: Quiz, a: Answers, b: Answers)
    requires NonNegative(quiz) && NoWorse(quiz, a, b)
    ensures Earned(quiz, a) <= Earned(quiz, b)
  {
    if quiz != [] {
      assert quiz[|quiz| - 1] in quiz;
      EarnedMonotone(quiz[..|quiz| - 1], a, b);
    }
  }

  /** Changing the answer to one question, to the exact one, never lowers the score. */
  lemma AnsweringOneMore(quiz: Quiz, answers: Answers, q: Question, picks: seq<int>, max: int)
    requires NonNegative(quiz) && 0 <= max && q in quiz
    requires forall p :: p in quiz && p.id == q.id ==> p == q
    requires RightPicks(q, picks)
    ensures Score(quiz, answers, max) <= Score(quiz, answers[q.id := picks], max)
  {
    var better := answers[q.id := picks];
    PicksAreCorrectIff(q, picks);
    forall p | p in quiz && Exact(p, answers) ensures Exact(p, better) {
      if p == q { assert Selected(q, better) == Correct(q) == Selected(q, answers); }
    }
    EarnedMonotone(quiz, answers, better);
    EarnedWithin(quiz, answers);
    EarnedWithin(quiz, better);
    ScaleMonotone(Earned(quiz, answers), Earned(quiz, better), Possible(quiz), max);
  }

  // ------------------------------------------------------------------ full marks

  // Every question worth anything is answered right.
  ghost predicate AllRight(quiz: Quiz, answers: Answers) {
    forall q :: q in quiz && q.points > 0 ==> AnsweredRight(q, answers)
  }

  lemma {:induction false} EarnedAllIff(quiz: Quiz, answers: Answers)
    requires NonNegative(quiz)
    ensures Earned(quiz, answers) == Possible(quiz) <==> AllRight(quiz, answers)
  {
    if quiz != [] {
      var init, last := quiz[..|quiz| - 1], quiz[|quiz| - 1];
      EarnedAllIff(init, answers);
      EarnedWithin(init, answers);
      ExactIff(last, answers);
      assert forall q :: q in quiz <==> q in init || q == last;
      assert last in quiz;
    }
  }

  lemma ScaleFullIff(earned: int, possible: int, max: int)
    requires 0 <= earned <= possible && possible > 0 && max > 0
    ensures Scale(earned, possible, max) == max as real <==> earned == possible
  {
    var p, m := possible as real, max as real;
    ShareEnds(p);
    ShareOrder(earned as real, p, p);
    if earned < possible { Times(earned as real / p, 1.0, m); }
  }

  /** Full marks, exactly when of every question worth anything all the correct choices, and no others, were picked. */
  lemma FullMarksIff(quiz: Quiz, answers: Answers, max: int)
    requires NonNegative(quiz) && max > 0 && TotalPoints(quiz) > 0
    ensures Score(quiz, answers, max) == max as real <==> AllRight(quiz, answers)
  {
    PointsAdd(quiz, answers);
    EarnedAllIff(quiz, answers);
    EarnedWithin(quiz, answers);
    ScaleFullIff(Earned(quiz, answers), Possible(quiz), max);
  }

  lemma Sign(d: real, p: real)
    requires p > 0.0
    ensures 0.0 <= d <==> 0.0 <= d * p
  {
  }

  lemma Half(x: real, m: real, p: real, xp: real, mp: real)
    requires p > 0.0 && x * p == xp && m * p == mp
    ensures m <= x + 0.5 <==> 2.0 * (mp - xp) <= p
  {
    Sign(x + 0.5 - m, p);
    assert (x + 0.5 - m) * p == x * p + 0.5 * p - m * p;
  }

  lemma Product(a: int, b: int)
    ensures (a * b) as real == a as real * b as real
  {
  }

  lemma ScaleTimes(earned: int, possible: int, max: int)
    requires possible > 0
    ensures Scale(earned, possible, max) * possible as real == (earned * max) as real
  {
    ScaleIsShare(earned, possible, max);
    Product(earned, max);
  }

  // In whole numbers.
  lemma HalfOfWhole(x: real, m: int, p: int, xp: int, mp: int)
    requires p > 0 && x * p as real == xp as real && m as real * p as real == mp as real
    ensures m as real <= x + 0.5 <==> 2 * (mp - xp) <= p
  {
    Half(x, m as real, p as real, xp as real, mp as real);
  }

  lemma ScaleStoredFull(earned: int, possible: int, max: int)
    requires 0 <= earned <= possible && possible > 0 && max > 0
    ensures Stored(Scale(earned, possible, max)) == max <==> 2 * (possible * max - earned * max) <= possible
  {
    var x, missing := Scale(earned, possible, max), possible * max - earned * max;
    assert 0.0 <= x <= max as real by { ScaleMonotone(earned, earned, possible, max); }
    assert max as real <= x + 0.5 <==> 2 * missing <= possible by {
      ScaleTimes(earned, possible, max);
      Product(max, possible);
      HalfOfWhole(x, max, possible, earned * max, possible * max);
    }
    StoredIsMax(x, max);
  }

  lemma StoredIsMax(x: real, max: int)
    requires 0.0 <= x <= max as real
    ensures Stored(x) == max <==> max as real <= x + 0.5
  {
  }

  /** The stored grade rounds: it shows full marks exactly when what is missing, scaled, is at most half a
      hundredth. */
  lemma StoredFullMarksIff(quiz: Quiz, answers: Answers, max: int)
    requires NonNegative(quiz) && max > 0 && TotalPoints(quiz) > 0
    ensures Stored(Score(quiz, answers, max)) == max
      <==> 2 * (TotalPoints(quiz) * max - RightPoints(quiz, answers) * max) <= TotalPoints(quiz)
  {
    PointsAdd(quiz, answers);
    EarnedWithin(quiz, answers);
    ScaleStoredFull(Earned(quiz, answers), Possible(quiz), max);
  }

  /** So it can show full marks for less than every question: here the question left out weighs one hundredth of a
      point in two hundred. */
  lemma StoredFullMarksForLess()
    ensures exists quiz, answers ::
      NonNegative(quiz) && TotalPoints(quiz) > 0 && !AllRight(quiz, answers)
      && Stored(Score(quiz, answers, 100)) == 100
  {
    var heavy, light := Question(1, 19_999, [Choice(10, true)]), Question(2, 1, [Choice(20, true)]);
    var quiz, answers := [heavy, light], map[1 := [10]];
    assert quiz[1..] == [light] && [light][1..] == [];
    assert Choice(10, true) in heavy.choices && AnsweredRight(heavy, answers);
    assert !AnsweredRight(light, answers) && light in quiz;
    assert RightPoints([light], answers) == 0 && TotalPoints([light]) == 1;
    assert RightPoints(quiz, answers) == 19_999 && TotalPoints(quiz) == 20_000;
    StoredFullMarksIff(quiz, answers, 100);
  }
}
