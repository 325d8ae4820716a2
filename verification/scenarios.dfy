/**
 * Concrete sessions of the to-do application, worked through the model from
 * a fresh start.
 */
module Scenarios {
  import opened Text
  import opened Tasks
  import opened Store

  /** Adding "Buy milk" to a fresh list, completing it, then deleting it: the
      task gets id 1, the display reads "0/1" and then "1/1", completing the
      only task starts the celebration, and deleting it empties the list. */
  lemma BuyMilkSession()
    ensures Add(Initial, "Buy milk") == AppState([Task(1, "Buy milk", false)], 2)
    ensures CountDisplay(Add(Initial, "Buy milk").tasks) == "0/1"
    ensures Toggle(Add(Initial, "Buy milk"), 1) == Toggled(AppState([Task(1, "Buy milk", true)], 2), true)
    ensures CountDisplay(Toggle(Add(Initial, "Buy milk"), 1).state.tasks) == "1/1"
    ensures Delete(Toggle(Add(Initial, "Buy milk"), 1).state, 1) == AppState([], 2)
  {
    assert !AllTrimmable("Buy milk") by {
      assert !IsTrimmable("Buy milk"[0]);
    }
    TrimOfTrimmed("Buy milk");
    var s1 := Add(Initial, "Buy milk");
    assert FindIndex(s1.tasks, 1) == 0;
    var s2 := Toggle(s1, 1).state;
    assert CountCompleted(s2.tasks) == 1;
    assert Decimal(1) == "1";
    assert Decimal(0) == "0";
  }

  /** Text that is empty or only blanks adds nothing. */
  lemma BlankTextAddsNothing(st: AppState)
    ensures Add(st, "") == st
    ensures Add(st, "   ") == st
    ensures Add(st, "\t\n") == st
  {
  }

  /** Two tasks: completing the first does not celebrate while the second is
      pending, completing the second does, and un-completing it again does
      not. */
  lemma TwoTaskCelebration()
    ensures var s2 := Add(Add(Initial, "a"), "b");
            var t1 := Toggle(s2, 1);
            var t2 := Toggle(t1.state, 2);
            var t3 := Toggle(t2.state, 2);
            && !t1.celebrate && t2.celebrate && !t3.celebrate
  {
    assert !AllTrimmable("a") by { assert !IsTrimmable("a"[0]); }
    assert !AllTrimmable("b") by { assert !IsTrimmable("b"[0]); }
    var s2 := Add(Add(Initial, "a"), "b");
    assert s2.tasks[0].id == 1 && s2.tasks[1].id == 2;
    assert FindIndex(s2.tasks, 1) == 0;
    var t1 := Toggle(s2, 1);
    assert FindIndex(t1.state.tasks, 2) == 1;
    var t2 := Toggle(t1.state, 2);
    assert FindIndex(t2.state.tasks, 2) == 1;
  }
}
