/** Frames and window updates in flight, and the sums over them. */
module Frames {

  /** `to` is a stream, or -1 for the connection; `size` the flow-controlled length or the
      increment; `last` the END_STREAM flag. */
  datatype Frame = Frame(to: int, size: nat, last: bool)

  function Total(fs: seq<Frame>): nat {
    if fs == [] then 0 else Total(fs[..|fs| - 1]) + fs[|fs| - 1].size
  }

  function Share(f: Frame, to: int): nat {
    if f.to == to then f.size else 0
  }

  function For(fs: seq<Frame>, to: int): nat {
    if fs == [] then 0 else For(fs[..|fs| - 1], to) + Share(fs[|fs| - 1], to)
  }

  lemma {:induction false} Appended(fs: seq<Frame>, f: Frame, to: int)
    ensures Total(fs + [f]) == Total(fs) + f.size
    ensures For(fs + [f], to) == For(fs, to) + Share(f, to)
  {
    assert (fs + [f])[..|fs|] == fs;
  }

  lemma {:induction false} One(f: Frame, k: int)
    ensures Total([f]) == f.size && For([f], k) == Share(f, k)
  {
    Appended([], f, k);
    assert [] + [f] == [f];
  }

  lemma {:induction false} Taken(fs: seq<Frame>, to: int)
    requires fs != []
    ensures Total(fs) == fs[0].size + Total(fs[1..])
    ensures For(fs, to) == Share(fs[0], to) + For(fs[1..], to)
  {
    if |fs| > 1 {
      var front := fs[..|fs| - 1];
      Taken(front, to);
      assert fs[1..][..|fs| - 2] == front[1..];
    }
  }
}
