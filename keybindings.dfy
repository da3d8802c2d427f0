/**
 * The keybinding filter run for every keyboard event: a first-match scan
 * of the ordered binding table that intercepts a press whose modifier
 * state equals a binding's exactly and whose raw symbols hold the binding's
 * key, and forwards everything else.
 */
module Keybindings {
  import opened Types

  /** Binding `b` is eligible for a key with modifiers `mods` and raw symbols `syms`. */
  predicate Matches(b: Binding, mods: Modifiers, syms: seq<Keysym>)
  {
    b.modifiers == mods && b.key in syms
  }

  /** The filter's decision, scanning `table` front to back. */
  function Decide(state: KeyState, mods: Modifiers, syms: seq<Keysym>, table: seq<Binding>): (r: FilterResult)
    ensures r.Intercept? ==> state == Pressed && exists b :: b in table && Matches(b, mods, syms) && b.action == r.action
    decreases |table|
  {
    if table == [] then Forward
    else if state == Pressed && Matches(table[0], mods, syms) then Intercept(table[0].action)
    else Decide(state, mods, syms, table[1..])
  }

  /** Index `i` holds the first binding of `table` that matches. */
  ghost predicate FirstMatchAt(table: seq<Binding>, mods: Modifiers, syms: seq<Keysym>, i: int)
  {
    0 <= i < |table| && Matches(table[i], mods, syms)
    && forall j :: 0 <= j < i ==> !Matches(table[j], mods, syms)
  }

  /** A release is never intercepted, whatever the table holds. */
  lemma {:induction false} ReleaseForwards(mods: Modifiers, syms: seq<Keysym>, table: seq<Binding>)
    ensures Decide(Released, mods, syms, table) == Forward
    decreases |table|
  {
    if table != [] {
      ReleaseForwards(mods, syms, table[1..]);
    }
  }

  /** A press is intercepted with the action of the first matching binding. */
  lemma {:induction false} FirstMatchWins(mods: Modifiers, syms: seq<Keysym>, table: seq<Binding>, i: int)
    requires FirstMatchAt(table, mods, syms, i)
    ensures Decide(Pressed, mods, syms, table) == Intercept(table[i].action)
    decreases |table|
  {
    if i > 0 {
      assert !Matches(table[0], mods, syms);
      FirstMatchWins(mods, syms, table[1..], i - 1);
    }
  }

  /** A press is forwarded exactly when no binding of the table matches. */
  lemma {:induction false} ForwardIffNoMatch(mods: Modifiers, syms: seq<Keysym>, table: seq<Binding>)
    ensures Decide(Pressed, mods, syms, table) == Forward
        <==> forall j :: 0 <= j < |table| ==> !Matches(table[j], mods, syms)
    decreases |table|
  {
    if table != [] {
      ForwardIffNoMatch(mods, syms, table[1..]);
      if !Matches(table[0], mods, syms) {
        forall j | 0 <= j < |table| && !Matches(table[j], mods, syms)
          ensures j == 0 || !Matches(table[1..][j - 1], mods, syms)
        {
        }
      }
    }
  }

  /** Whenever a press is intercepted, the action is that of a first match. */
  lemma {:induction false} InterceptIsFirstMatch(mods: Modifiers, syms: seq<Keysym>, table: seq<Binding>, a: Action)
    requires Decide(Pressed, mods, syms, table) == Intercept(a)
    ensures exists i :: FirstMatchAt(table, mods, syms, i) && table[i].action == a
    decreases |table|
  {
    if Matches(table[0], mods, syms) {
      assert FirstMatchAt(table, mods, syms, 0);
    } else {
      InterceptIsFirstMatch(mods, syms, table[1..], a);
      var k :| FirstMatchAt(table[1..], mods, syms, k) && table[1..][k].action == a;
      assert FirstMatchAt(table, mods, syms, k + 1);
    }
  }

  /**
   * The filter closure itself: a loop over the table with an early return
   * on the first binding that matches a press.
   */
  method FilterKey(state: KeyState, mods: Modifiers, syms: seq<Keysym>, table: seq<Binding>) returns (r: FilterResult)
    ensures r == Decide(state, mods, syms, table)
    ensures r.Intercept? ==> state == Pressed && exists i :: FirstMatchAt(table, mods, syms, i) && table[i].action == r.action
  {
    var i := 0;
    while i < |table|
      invariant 0 <= i <= |table|
      invariant Decide(state, mods, syms, table) == Decide(state, mods, syms, table[i..])
    {
      var b := table[i];
      if state == Pressed && b.modifiers == mods && b.key in syms {
        r := Intercept(b.action);
        InterceptIsFirstMatch(mods, syms, table, r.action);
        return;
      }
      assert table[i..][1..] == table[i + 1..];
      i := i + 1;
    }
    r := Forward;
    if state == Released {
      ReleaseForwards(mods, syms, table);
    }
  }
}
