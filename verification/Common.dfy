/** What the models share. */
module Common {

  datatype Option<+T> = None | Some(value: T)

  /** A finite set of names has a bound. */
  lemma {:induction false} Above(keys: set<nat>) returns (b: nat)
    ensures forall k :: k in keys ==> k < b
  {
    if keys == {} {
      b := 0;
    } else {
      var k :| k in keys;
      var rest := Above(keys - {k});
      b := if k < rest then rest else k + 1;
      assert forall j :: j in keys ==> j == k || j in keys - {k};
    }
  }
}
