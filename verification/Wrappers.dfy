/** Optional values, outcomes, byte strings, and the size of finite sets. */
module Wrappers {

  datatype Option<+T> = None | Some(value: T) {
    function GetOr(default: T): T { if Some? then value else default }

    function OrElse(other: Option<T>): Option<T> { if Some? then this else other }
  }

  datatype Outcome<+E> = Pass | Fail(error: E)

  newtype byte = b: int | 0 <= b < 256

  type Bytes = seq<byte>

  /** A subset is no larger than its superset. */
  lemma {:induction false} SubsetSize<T>(a: set<T>, b: set<T>)
    requires a <= b
    ensures |a| <= |b|
  {
    if a == {} {
    } else {
      var x :| x in a;
      SubsetSize(a - {x}, b - {x});
    }
  }
}
