/** Go's error values as far as errors.Join looks at them. */
module Errors {
  import opened Text

  datatype Error = Plain(id: int) | Joined(errs: seq<Error>)

  function NonNil(errs: seq<Option<Error>>): seq<Error> {
    if errs == [] then []
    else (if errs[0].Some? then [errs[0].value] else []) + NonNil(errs[1..])
  }

  /** errors.Join: nil errors are dropped, and nothing but nil gives nil. */
  function JoinErrors(errs: seq<Option<Error>>): Option<Error> {
    var kept := NonNil(errs);
    if kept == [] then None else Some(Joined(kept))
  }

  lemma {:induction false} NonNilAppend(a: seq<Option<Error>>, b: seq<Option<Error>>)
    ensures NonNil(a + b) == NonNil(a) + NonNil(b)
  {
    if a == [] {
      assert a + b == b;
    } else {
      NonNilAppend(a[1..], b);
      assert (a + b)[1..] == a[1..] + b;
    }
  }

  lemma NonNilOne(a: seq<Option<Error>>, e: Option<Error>)
    ensures NonNil(a + [e]) == NonNil(a) + (if e.Some? then [e.value] else [])
  {
    NonNilAppend(a, [e]);
    assert [e][1..] == [];
  }

  lemma {:induction false} NonNilOfSome(es: seq<Error>, errs: seq<Option<Error>>)
    requires |errs| == |es| && forall i :: 0 <= i < |es| ==> errs[i] == Some(es[i])
    ensures NonNil(errs) == es
  {
    if es != [] {
      NonNilOfSome(es[1..], errs[1..]);
      assert es == [es[0]] + es[1..];
    }
  }

  /** A join is nil exactly when everything joined is; it never hides an error. */
  lemma {:induction false} JoinNilIff(errs: seq<Option<Error>>)
    ensures JoinErrors(errs) == None <==> forall i :: 0 <= i < |errs| ==> errs[i] == None
  {
    if errs != [] {
      JoinNilIff(errs[1..]);
      assert (forall i :: 0 <= i < |errs| ==> errs[i] == None) <==>
             (errs[0] == None && forall i :: 0 <= i < |errs[1..]| ==> errs[1..][i] == None) by {
        assert forall i :: 0 < i < |errs| ==> errs[i] == errs[1..][i - 1];
        assert forall i :: 0 <= i < |errs[1..]| ==> errs[1..][i] == errs[i + 1];
      }
    }
  }
}
