/** Facts about sequences that the models share: concatenating a list of pieces, and lists without repetition. */
module Sequences {

  datatype Option<+T> = None | Some(value: T)

  /** All the pieces, one after the other. */
  function Flatten<T>(pieces: seq<seq<T>>): (whole: seq<T>) {
    if pieces == [] then [] else pieces[0] + Flatten(pieces[1..])
  }

  lemma Associative<T>(a: seq<T>, b: seq<T>, c: seq<T>)
    ensures a + b + c == a + (b + c)
  {
  }

  lemma {:induction false} FlattenAppend<T>(left: seq<seq<T>>, right: seq<seq<T>>)
    ensures Flatten(left + right) == Flatten(left) + Flatten(right)
  {
    if left == [] {
      assert left + right == right;
    } else {
      FlattenAppend(left[1..], right);
      assert (left + right)[0] == left[0] && (left + right)[1..] == left[1..] + right;
      Associative(left[0], Flatten(left[1..]), Flatten(right));
    }
  }

  lemma FlattenSnoc<T>(pieces: seq<seq<T>>, piece: seq<T>)
    ensures Flatten(pieces + [piece]) == Flatten(pieces) + piece
  {
    FlattenAppend(pieces, [piece]);
    assert [piece][1..] == [];
  }

  ghost predicate Distinct<T>(s: seq<T>) {
    forall i, j :: 0 <= i < j < |s| ==> s[i] != s[j]
  }
}
