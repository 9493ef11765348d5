/** The target filter and the "last matching entry that sets the field wins" rule that the
    resolver applies, field by field, to every target-tagged manifest list. */
module Layering {
  import opened Results

  /** The wildcard target: an entry declared for it applies to every resolution. */
  const AllTargets := "all"

  /** The target filter: an entry applies when it is declared for every target or for
      exactly the requested one (case-sensitive, no patterns). */
  predicate Matches(declared: string, target: string) {
    declared == AllTargets || declared == target
  }

  /** Entry `e` applies to `target` and supplies a value for `field`. */
  predicate Sets<E, T>(e: E, targetOf: E -> string, target: string, field: E -> Option<T>) {
    Matches(targetOf(e), target) && field(e).Some?
  }

  /** The value of `field` in the last entry of `es` that applies to `target` and sets it,
      or `None` when no such entry exists. Defined from the back, as a running value that
      each entry may overwrite. */
  function LastSet<E, T>(es: seq<E>, targetOf: E -> string, target: string, field: E -> Option<T>): Option<T>
    decreases |es|
  {
    if es == [] then None
    else
      var e := es[|es| - 1];
      if Sets(e, targetOf, target, field) then field(e)
      else LastSet(es[..|es| - 1], targetOf, target, field)
  }

  /** Appending one entry: it wins when it sets the field, and otherwise leaves the running
      value alone (an entry that omits a field never clears it). */
  lemma LastSetAppend<E, T>(es: seq<E>, e: E, targetOf: E -> string, target: string, field: E -> Option<T>)
    ensures LastSet(es + [e], targetOf, target, field)
         == if Sets(e, targetOf, target, field) then field(e) else LastSet(es, targetOf, target, field)
  {
    assert (es + [e])[..|es|] == es;
  }

  /** Nothing is set exactly when no entry applies and sets the field. */
  lemma {:induction false} LastSetNone<E, T>(es: seq<E>, targetOf: E -> string, target: string, field: E -> Option<T>)
    ensures LastSet(es, targetOf, target, field).None?
        <==> forall i :: 0 <= i < |es| ==> !Sets(es[i], targetOf, target, field)
    decreases |es|
  {
    if es != [] {
      var init := es[..|es| - 1];
      LastSetNone(init, targetOf, target, field);
      assert forall i :: 0 <= i < |init| ==> init[i] == es[i];
    }
  }

  /** The entry at `i` decides the value when it sets the field and no later entry does. */
  lemma {:induction false} LastSetIsLast<E, T>(es: seq<E>, i: nat, targetOf: E -> string, target: string, field: E -> Option<T>)
    requires i < |es| && Sets(es[i], targetOf, target, field)
    requires forall j :: i < j < |es| ==> !Sets(es[j], targetOf, target, field)
    ensures LastSet(es, targetOf, target, field) == field(es[i])
    decreases |es|
  {
    if i < |es| - 1 {
      var init := es[..|es| - 1];
      assert forall j :: i < j < |init| ==> init[j] == es[j];
      LastSetIsLast(init, i, targetOf, target, field);
    }
  }

  /** A set value always comes from an applying entry after which no applying entry sets
      the field. */
  lemma {:induction false} LastSetWitness<E, T>(es: seq<E>, targetOf: E -> string, target: string, field: E -> Option<T>)
    requires LastSet(es, targetOf, target, field).Some?
    ensures exists i :: 0 <= i < |es| && Sets(es[i], targetOf, target, field)
                     && field(es[i]) == LastSet(es, targetOf, target, field)
                     && forall j :: i < j < |es| ==> !Sets(es[j], targetOf, target, field)
    decreases |es|
  {
    var last := |es| - 1;
    if !Sets(es[last], targetOf, target, field) {
      var init := es[..last];
      LastSetWitness(init, targetOf, target, field);
      var i :| 0 <= i < |init| && Sets(init[i], targetOf, target, field)
               && field(init[i]) == LastSet(init, targetOf, target, field)
               && forall j :: i < j < |init| ==> !Sets(init[j], targetOf, target, field);
      assert es[i] == init[i];
      assert forall j :: i < j < |es| ==> !Sets(es[j], targetOf, target, field) by {
        forall j | i < j < |es| ensures !Sets(es[j], targetOf, target, field) {
          if j < last { assert es[j] == init[j]; }
        }
      }
    }
  }

  /** The entries of `es` that apply to `target`, in declaration order. */
  function Applying<E>(es: seq<E>, targetOf: E -> string, target: string): (r: seq<E>)
    ensures |r| <= |es|
    ensures forall k :: 0 <= k < |r| ==> Matches(targetOf(r[k]), target)
    decreases |es|
  {
    if es == [] then []
    else
      var init := Applying(es[..|es| - 1], targetOf, target);
      if Matches(targetOf(es[|es| - 1]), target) then init + [es[|es| - 1]] else init
  }

  /** An entry is kept exactly when it is one of the entries and applies to the target. */
  lemma {:induction false} ApplyingMembers<E>(es: seq<E>, targetOf: E -> string, target: string, e: E)
    ensures e in Applying(es, targetOf, target) <==> e in es && Matches(targetOf(e), target)
    decreases |es|
  {
    if es != [] {
      var init := es[..|es| - 1];
      ApplyingMembers(init, targetOf, target, e);
      assert es == init + [es[|es| - 1]];
    }
  }
}
