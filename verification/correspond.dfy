/** Pairwise agreement of two sequences (core/src/util/correspond.rs). */
module CorrespondExt {

  /**
   * Walks both sequences in step: a pair on which `f` fails stops with false,
   * both ending together gives true, one ending first gives false.
   */
  function Correspond<A, B>(xs: seq<A>, ys: seq<B>, f: (A, B) -> bool): (r: bool)
    ensures r <==> |xs| == |ys| && forall i :: 0 <= i < |xs| ==> f(xs[i], ys[i])
  {
    if |xs| > 0 && |ys| > 0 then
      if !f(xs[0], ys[0]) then false
      else
        var rest := Correspond(xs[1..], ys[1..], f);
        assert rest ==> forall i :: 1 <= i < |xs| ==> f(xs[i], ys[i]) by {
          if rest {
            forall i | 1 <= i < |xs| ensures f(xs[i], ys[i]) {
              assert xs[1..][i - 1] == xs[i] && ys[1..][i - 1] == ys[i];
            }
          }
        }
        rest
    else
      |xs| == 0 && |ys| == 0
  }
}
