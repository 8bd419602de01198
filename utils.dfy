/**
 * Model of `resources_updater/utils.py`: the conjunctive predicate builder
 * and the insecure-path error.
 */
module Utils {

  /** The conjunction of `ps` on `t`, evaluated left to right. This is the
      reference meaning of a builder holding `ps`. */
  function AllHold<T>(ps: seq<T -> bool>, t: T): (r: bool)
    ensures r <==> forall i :: 0 <= i < |ps| ==> ps[i](t)
  {
    if |ps| == 0 then true
    else
      assert forall i :: 1 <= i < |ps| ==> ps[i] == ps[1..][i - 1];
      ps[0](t) && AllHold(ps[1..], t)
  }

  /** When the conjunction fails there is a first failing predicate, and every
      predicate before it holds: the place where a left-to-right scan stops. */
  lemma {:induction false} FirstFailure<T>(ps: seq<T -> bool>, t: T) returns (k: nat)
    requires !AllHold(ps, t)
    ensures k < |ps| && !ps[k](t)
    ensures forall j :: 0 <= j < k ==> ps[j](t)
  {
    if !ps[0](t) {
      k := 0;
    } else {
      var k' := FirstFailure(ps[1..], t);
      k := k' + 1;
      forall j | 0 <= j < k ensures ps[j](t) {
        if j > 0 { assert ps[j] == ps[1..][j - 1]; }
      }
    }
  }

  /** `ConjunctionPredicateBuilder`: a list of predicates that `Add` extends in
      place and `Build` turns into their conjunction. */
  class ConjunctionPredicateBuilder<T(!new)> {
    var s: seq<T -> bool>

    constructor ()
      ensures s == []
    {
      s := [];
    }

    /** Appends `p` when `b` holds, and returns the builder itself for chaining. */
    method Add(b: bool, p: T -> bool) returns (self: ConjunctionPredicateBuilder<T>)
      modifies this
      ensures self == this
      ensures b ==> s == old(s) + [p]
      ensures !b ==> s == old(s)
    {
      if b {
        s := s + [p];
      }
      self := this;
    }

    /** The general case: scans the predicates and answers false at the first
        one that rejects `t`. */
    method Holds(t: T) returns (ok: bool)
      ensures ok <==> forall i :: 0 <= i < |s| ==> s[i](t)
      ensures ok == AllHold(s, t)
    {
      var i := 0;
      while i < |s|
        invariant 0 <= i <= |s|
        invariant forall j :: 0 <= j < i ==> s[j](t)
      {
        if !s[i](t) {
          return false;
        }
        i := i + 1;
      }
      return true;
    }

    /** The conjunction, written out for up to four predicates and deferring to
        the general scan beyond that. */
    function Build(): (r: T -> bool)
      reads this
      ensures forall t :: r(t) == AllHold(s, t)
    {
      var ps := s;
      match |ps|
      case 0 => (t: T) => true
      case 1 => (t: T) => ps[0](t)
      case 2 => (t: T) => ps[0](t) && ps[1](t)
      case 3 => (t: T) => ps[0](t) && ps[1](t) && ps[2](t)
      case 4 => (t: T) => ps[0](t) && ps[1](t) && ps[2](t) && ps[3](t)
      case _ => (t: T) => AllHold(ps, t)
    }
  }

  /** `InsecurePathError`: an OS error whose string form is its message. */
  datatype InsecurePathError = InsecurePathError(msg: string) {
    function ToString(): (r: string)
      ensures r == msg
    {
      msg
    }
  }
}
