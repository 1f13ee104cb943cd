/** The "Nutrition Summary" of the dashboard: a user's meals grouped by date,
    with protein, carbs and fat summed per date. */
module Nutrition {
  import opened Dates
  import opened Records
  import opened Queries

  datatype Macros = Macros(protein: int, carbs: int, fat: int)

  const ZERO: Macros := Macros(0, 0, 0)

  function Plus(a: Macros, b: Macros): Macros
  {
    Macros(a.protein + b.protein, a.carbs + b.carbs, a.fat + b.fat)
  }

  function MacrosOf(m: Meal): Macros
  {
    Macros(m.protein, m.carbs, m.fat)
  }

  /** One row of `daily_totals`. */
  datatype DayTotal = DayTotal(date: Date, macros: Macros)

  /** The reference sum: the macros of all meals dated `date`. */
  function MacrosOn(meals: seq<Meal>, date: Date): Macros
  {
    if meals == [] then ZERO
    else
      var last := meals[|meals| - 1];
      Plus(MacrosOn(meals[..|meals| - 1], date), if last.date == date then MacrosOf(last) else ZERO)
  }

  /** The macros of all meals. */
  function SumMacros(meals: seq<Meal>): Macros
  {
    if meals == [] then ZERO
    else Plus(SumMacros(meals[..|meals| - 1]), MacrosOf(meals[|meals| - 1]))
  }

  /** The macros of all rows of a totals table. */
  function Total(ts: seq<DayTotal>): Macros
  {
    if ts == [] then ZERO else Plus(ts[0].macros, Total(ts[1..]))
  }

  /** The dates that have a row. */
  function Days(ts: seq<DayTotal>): set<Date>
  {
    if ts == [] then {} else {ts[0].date} + Days(ts[1..])
  }

  /** The totals a table records for `date`, zero if it has no row for it. */
  function TotalOn(ts: seq<DayTotal>, date: Date): Macros
  {
    if ts == [] then ZERO
    else if ts[0].date == date then ts[0].macros
    else TotalOn(ts[1..], date)
  }

  /** Each row's date comes before the dates of all later rows, so no date has two rows. */
  predicate StrictlyAscending(ts: seq<DayTotal>)
  {
    ts == [] || ((forall d :: d in Days(ts[1..]) ==> Before(ts[0].date, d)) && StrictlyAscending(ts[1..]))
  }

  /** Adds the macros `x` of one meal to the row of `date`, creating the row at
      its place in date order when the date has none yet. */
  function AddToDay(ts: seq<DayTotal>, date: Date, x: Macros): seq<DayTotal>
  {
    if ts == [] then [DayTotal(date, x)]
    else if ts[0].date == date then [DayTotal(date, Plus(ts[0].macros, x))] + ts[1..]
    else if Before(date, ts[0].date) then [DayTotal(date, x)] + ts
    else [ts[0]] + AddToDay(ts[1..], date, x)
  }

  lemma {:induction false} AddToDayDays(ts: seq<DayTotal>, date: Date, x: Macros)
    ensures Days(AddToDay(ts, date, x)) == Days(ts) + {date}
  {
    if ts != [] && ts[0].date != date && !Before(date, ts[0].date) {
      AddToDayDays(ts[1..], date, x);
      assert AddToDay(ts, date, x)[1..] == AddToDay(ts[1..], date, x);
    } else if ts != [] && ts[0].date == date {
      assert AddToDay(ts, date, x)[1..] == ts[1..];
    } else if ts != [] {
      assert AddToDay(ts, date, x)[1..] == ts;
    }
  }

  lemma {:induction false} AddToDayAscending(ts: seq<DayTotal>, date: Date, x: Macros)
    requires StrictlyAscending(ts)
    ensures StrictlyAscending(AddToDay(ts, date, x))
  {
    var r := AddToDay(ts, date, x);
    if ts == [] {
      assert r[1..] == [];
    } else if ts[0].date == date {
      assert r[1..] == ts[1..];
    } else if Before(date, ts[0].date) {
      assert r[1..] == ts;
      forall d | d in Days(ts) ensures Before(date, d) {
        if d != ts[0].date {
          BeforeTransitive(date, ts[0].date, d);
        }
      }
    } else {
      BeforeTotal(date, ts[0].date);
      assert r[1..] == AddToDay(ts[1..], date, x);
      AddToDayAscending(ts[1..], date, x);
      AddToDayDays(ts[1..], date, x);
    }
  }

  /** A table without a row for `date` records zero for it. */
  lemma {:induction false} TotalOnAbsent(ts: seq<DayTotal>, date: Date)
    requires date !in Days(ts)
    ensures TotalOn(ts, date) == ZERO
  {
    if ts != [] {
      TotalOnAbsent(ts[1..], date);
    }
  }

  lemma {:induction false} AddToDayTotalOn(ts: seq<DayTotal>, date: Date, x: Macros, d: Date)
    requires StrictlyAscending(ts)
    ensures TotalOn(AddToDay(ts, date, x), d) == if d == date then Plus(TotalOn(ts, d), x) else TotalOn(ts, d)
  {
    var r := AddToDay(ts, date, x);
    if ts == [] {
    } else if ts[0].date == date {
      assert r[1..] == ts[1..];
    } else if Before(date, ts[0].date) {
      assert r[1..] == ts;
      if d == date {
        BeforeIrreflexive(date);
        assert date !in Days(ts) by {
          if date in Days(ts) { BeforeAsymmetric(date, ts[0].date); }
        }
        TotalOnAbsent(ts, date);
      }
    } else {
      assert r[1..] == AddToDay(ts[1..], date, x);
      AddToDayTotalOn(ts[1..], date, x, d);
    }
  }

  lemma {:induction false} AddToDayTotal(ts: seq<DayTotal>, date: Date, x: Macros)
    ensures Total(AddToDay(ts, date, x)) == Plus(Total(ts), x)
  {
    var r := AddToDay(ts, date, x);
    if ts == [] {
      assert r[1..] == [];
    } else if ts[0].date == date {
      assert r[1..] == ts[1..];
    } else if Before(date, ts[0].date) {
      assert r[1..] == ts;
    } else {
      assert r[1..] == AddToDay(ts[1..], date, x);
      AddToDayTotal(ts[1..], date, x);
    }
  }

  /** The dates on which meals were logged. */
  function MealDates(meals: seq<Meal>): set<Date>
  {
    set m | m in meals :: m.date
  }

  /** `nutrition_df.groupby('date')[['protein', 'carbs', 'fat']].sum().reset_index()`:
      one row per date that has meals, in ascending date order, holding the sum
      of each macro over that date's meals; the rows together hold every meal. */
  function DailyTotals(meals: seq<Meal>): (r: seq<DayTotal>)
    ensures StrictlyAscending(r)
    ensures Days(r) == MealDates(meals)
    ensures forall d :: TotalOn(r, d) == MacrosOn(meals, d)
    ensures Total(r) == SumMacros(meals)
  {
    if meals == [] then []
    else
      var before := DailyTotals(meals[..|meals| - 1]);
      DailyTotalsStep(meals, before);
      AddToDay(before, meals[|meals| - 1].date, MacrosOf(meals[|meals| - 1]))
  }

  /** One step of the fold: folding the last meal into the totals of the
      earlier meals gives the totals of all meals. */
  lemma DailyTotalsStep(meals: seq<Meal>, before: seq<DayTotal>)
    requires meals != []
    requires StrictlyAscending(before)
    requires Days(before) == MealDates(meals[..|meals| - 1])
    requires forall d :: TotalOn(before, d) == MacrosOn(meals[..|meals| - 1], d)
    requires Total(before) == SumMacros(meals[..|meals| - 1])
    ensures var r := AddToDay(before, meals[|meals| - 1].date, MacrosOf(meals[|meals| - 1]));
      && StrictlyAscending(r)
      && Days(r) == MealDates(meals)
      && (forall d :: TotalOn(r, d) == MacrosOn(meals, d))
      && Total(r) == SumMacros(meals)
  {
    var init := meals[..|meals| - 1];
    var last := meals[|meals| - 1];
    MealDatesSnoc(meals);
    AddToDayDays(before, last.date, MacrosOf(last));
    AddToDayAscending(before, last.date, MacrosOf(last));
    AddToDayTotal(before, last.date, MacrosOf(last));
    forall d ensures TotalOn(AddToDay(before, last.date, MacrosOf(last)), d) == MacrosOn(meals, d) {
      AddToDayTotalOn(before, last.date, MacrosOf(last), d);
      MacrosOnSnoc(meals, d);
    }
  }

  lemma MealDatesSnoc(meals: seq<Meal>)
    requires meals != []
    ensures MealDates(meals) == MealDates(meals[..|meals| - 1]) + {meals[|meals| - 1].date}
  {
    assert meals == meals[..|meals| - 1] + [meals[|meals| - 1]];
  }

  /** The reference sum of one date, after one more meal. */
  lemma MacrosOnSnoc(meals: seq<Meal>, d: Date)
    requires meals != []
    ensures var last := meals[|meals| - 1];
      MacrosOn(meals, d) == if last.date == d then Plus(MacrosOn(meals[..|meals| - 1], d), MacrosOf(last))
                            else MacrosOn(meals[..|meals| - 1], d)
  {
  }

  /** The dates of a table are the dates of its rows. */
  lemma {:induction false} DaysAreRowDates(ts: seq<DayTotal>)
    ensures forall i :: 0 <= i < |ts| ==> ts[i].date in Days(ts)
    ensures forall d :: d in Days(ts) ==> exists i :: 0 <= i < |ts| && ts[i].date == d
  {
    if ts != [] {
      DaysAreRowDates(ts[1..]);
      forall i | 0 < i < |ts| ensures ts[i].date in Days(ts) {
        assert ts[1..][i - 1] == ts[i];
      }
      forall d | d in Days(ts[1..]) ensures exists i :: 0 <= i < |ts| && ts[i].date == d {
        var k :| 0 <= k < |ts| - 1 && ts[1..][k].date == d;
        assert ts[k + 1].date == d;
      }
    }
  }

  /** Ascending, spelled out on positions: every row's date comes before the
      date of every later row. */
  lemma {:induction false} AscendingByPosition(ts: seq<DayTotal>)
    requires StrictlyAscending(ts)
    ensures forall i, j :: 0 <= i < j < |ts| ==> Before(ts[i].date, ts[j].date)
  {
    if ts != [] {
      AscendingByPosition(ts[1..]);
      DaysAreRowDates(ts[1..]);
      forall i, j | 0 <= i < j < |ts| ensures Before(ts[i].date, ts[j].date) {
        assert ts[j] == ts[1..][j - 1];
        if i > 0 {
          assert ts[i] == ts[1..][i - 1];
        }
      }
    }
  }

  /** In a table without repeated dates, each row holds the table's totals for its date. */
  lemma {:induction false} RowHoldsTotalOn(ts: seq<DayTotal>, i: nat)
    requires StrictlyAscending(ts) && i < |ts|
    ensures ts[i].macros == TotalOn(ts, ts[i].date)
  {
    if i > 0 {
      AscendingByPosition(ts);
      assert Before(ts[0].date, ts[i].date);
      BeforeIrreflexive(ts[i].date);
      assert ts[1..][i - 1] == ts[i];
      RowHoldsTotalOn(ts[1..], i - 1);
    }
  }

  /** The summary shown for a user: dates strictly ascending, one row for each
      date on which that user logged a meal and for no other date, each row
      holding the sums over exactly that user's meals of its date, and the
      rows together adding up to all of that user's meals. */
  lemma UserDailyTotals(meals: seq<Meal>, userId: UserId)
    ensures var r := DailyTotals(UserMeals(meals, userId));
      && (forall i, j :: 0 <= i < j < |r| ==> Before(r[i].date, r[j].date))
      && (forall d :: d in Days(r) <==> exists m :: m in meals && m.userId == userId && m.date == d)
      && (forall i :: 0 <= i < |r| ==> r[i].macros == MacrosOn(UserMeals(meals, userId), r[i].date))
      && Total(r) == SumMacros(UserMeals(meals, userId))
  {
    var mine := UserMeals(meals, userId);
    var r := DailyTotals(mine);
    AscendingByPosition(r);
    forall i | 0 <= i < |r| ensures r[i].macros == MacrosOn(mine, r[i].date) {
      RowHoldsTotalOn(r, i);
    }
    forall d ensures d in Days(r) <==> exists m :: m in meals && m.userId == userId && m.date == d {
      assert d in MealDates(mine) <==> exists m :: m in mine && m.date == d;
    }
  }

  /** Two meals on one date and one on the next give two rows, in date order,
      the first summing both meals of its date. */
  lemma DailyTotalsExample()
    ensures DailyTotals([
              Meal(1, 1, "2024-01-01", "Breakfast", "08:00:00", 30, 40, 15, ""),
              Meal(2, 1, "2024-01-01", "Snack", "16:00:00", 10, 5, 5, ""),
              Meal(3, 1, "2024-01-02", "Lunch", "12:00:00", 20, 20, 20, "")])
         == [DayTotal("2024-01-01", Macros(40, 45, 20)), DayTotal("2024-01-02", Macros(20, 20, 20))]
  {
    var m1 := Meal(1, 1, "2024-01-01", "Breakfast", "08:00:00", 30, 40, 15, "");
    var m2 := Meal(2, 1, "2024-01-01", "Snack", "16:00:00", 10, 5, 5, "");
    var m3 := Meal(3, 1, "2024-01-02", "Lunch", "12:00:00", 20, 20, 20, "");
    var meals := [m1, m2, m3];
    var first := [DayTotal("2024-01-01", Macros(40, 45, 20))];
    ExampleLastMeal(meals);
    ExampleFirstDate(m1, m2);
    ExampleNextDate(first, m3);
  }

  lemma ExampleLastMeal(meals: seq<Meal>)
    requires |meals| == 3
    ensures DailyTotals(meals) == AddToDay(DailyTotals(meals[..2]), meals[2].date, MacrosOf(meals[2]))
  {
  }

  lemma ExampleFirstDate(m1: Meal, m2: Meal)
    requires m1 == Meal(1, 1, "2024-01-01", "Breakfast", "08:00:00", 30, 40, 15, "")
    requires m2 == Meal(2, 1, "2024-01-01", "Snack", "16:00:00", 10, 5, 5, "")
    ensures DailyTotals([m1, m2]) == [DayTotal("2024-01-01", Macros(40, 45, 20))]
  {
    assert [m1, m2][..1] == [m1];
    assert [m1][..0] == [];
  }

  lemma ExampleNextDate(first: seq<DayTotal>, m3: Meal)
    requires first == [DayTotal("2024-01-01", Macros(40, 45, 20))]
    requires m3 == Meal(3, 1, "2024-01-02", "Lunch", "12:00:00", 20, 20, 20, "")
    ensures AddToDay(first, m3.date, MacrosOf(m3)) == first + [DayTotal("2024-01-02", Macros(20, 20, 20))]
  {
    var d1: Date, d2: Date := "2024-01-01", "2024-01-02";
    assert d1[..9] == d2[..9];
    BeforeAfterCommonPrefix(d1, d2, 9);
    BeforeAsymmetric(d1, d2);
  }
}
