/** The round table of kernel/sync/test_phi.c, for any number of seats. */
module Table {

  datatype Mood = Thinking | Hungry | Eating

  function Left(i: nat, n: nat): (r: nat)
    requires i < n
    ensures r < n
  {
    (i + n - 1) % n
  }

  function Right(i: nat, n: nat): (r: nat)
    requires i < n
    ensures r < n
  {
    (i + 1) % n
  }

  lemma LeftIs(i: nat, n: nat)
    requires i < n
    ensures Left(i, n) == if i == 0 then n - 1 else i - 1
  {
    if i > 0 {
      WrapOnce(i - 1, n);
    }
  }

  lemma RightIs(i: nat, n: nat)
    requires i < n
    ensures Right(i, n) == if i == n - 1 then 0 else i + 1
  {
    if i == n - 1 {
      WrapOnce(0, n);
    }
  }

  lemma WrapOnce(x: nat, n: nat)
    requires x < n
    ensures (x + n) % n == x
  {
  }

  /** Left and right undo each other; with two seats or more nobody is his own neighbour. */
  lemma Neighbours(i: nat, n: nat)
    requires i < n
    ensures Left(Right(i, n), n) == i && Right(Left(i, n), n) == i
    ensures n >= 2 ==> Left(i, n) != i && Right(i, n) != i
  {
    LeftIs(i, n);
    RightIs(i, n);
    LeftIs(Right(i, n), n);
    RightIs(Left(i, n), n);
  }

  predicate EatingNeighbour(mood: seq<Mood>, i: nat)
    requires i < |mood|
  {
    mood[Left(i, |mood|)] == Eating || mood[Right(i, |mood|)] == Eating
  }

  /** The condition under which `phi_test` lets `i` eat. */
  predicate MayEat(mood: seq<Mood>, i: nat)
    requires i < |mood|
  {
    mood[i] == Hungry && !EatingNeighbour(mood, i)
  }

  /** Neighbours never eat together. */
  predicate Apart(mood: seq<Mood>) {
    forall i :: 0 <= i < |mood| ==> !(mood[i] == Eating && EatingNeighbour(mood, i))
  }

  lemma ApartAfterTest(mood: seq<Mood>, i: nat)
    requires |mood| >= 2 && i < |mood| && Apart(mood) && MayEat(mood, i)
    ensures Apart(mood[i := Eating])
  {
    var n, m' := |mood|, mood[i := Eating];
    Neighbours(i, n);
    forall j | 0 <= j < n ensures !(m'[j] == Eating && EatingNeighbour(m', j)) {
      Neighbours(j, n);
      assert !(mood[j] == Eating && EatingNeighbour(mood, j));
    }
  }

  lemma ApartAfterRise(mood: seq<Mood>, i: nat, x: Mood)
    requires i < |mood| && Apart(mood) && x != Eating
    ensures Apart(mood[i := x])
  {
    var m' := mood[i := x];
    forall j | 0 <= j < |mood| ensures !(m'[j] == Eating && EatingNeighbour(m', j)) {
      assert !(mood[j] == Eating && EatingNeighbour(mood, j));
    }
  }
}
