/** Key/value records built by assigning entries one after another into an
    empty object, as `status[k] = v` in a loop and lodash `fromPairs` do: a
    later entry for a key overwrites an earlier one, and a key given without a
    value maps to `undefined` (`None`). */
module Record {
  import opened Common

  type Entry = (string, Option<string>)
  type Rec = map<string, Option<string>>

  /** Assigning the entries into an empty record, one after another. */
  function Build(es: seq<Entry>): Rec {
    if es == [] then map[]
    else Build(es[..|es| - 1])[es[|es| - 1].0 := es[|es| - 1].1]
  }

  /** A key is in the record exactly when some entry has it. */
  lemma {:induction false} BuildKeys(es: seq<Entry>, k: string)
    ensures k in Build(es) <==> exists v :: (k, v) in es
  {
    if es != [] {
      var init := es[..|es| - 1];
      BuildKeys(init, k);
      if exists v :: (k, v) in init {
        var v :| (k, v) in init;
        assert (k, v) in es;
      }
      if k != es[|es| - 1].0 && exists v :: (k, v) in es {
        var v :| (k, v) in es;
        assert (k, v) in init;
      }
    }
  }

  /** A key holds the value of the last entry that has it. */
  lemma {:induction false} BuildLastWins(es: seq<Entry>, i: nat)
    requires i < |es|
    requires forall j :: i < j < |es| ==> es[j].0 != es[i].0
    ensures es[i].0 in Build(es) && Build(es)[es[i].0] == es[i].1
  {
    if i < |es| - 1 {
      var init := es[..|es| - 1];
      BuildLastWins(init, i);
    }
  }

  /** Assigning two blocks of entries one after the other is assigning the
      first and letting the second overwrite it. */
  lemma {:induction false} BuildConcat(a: seq<Entry>, b: seq<Entry>)
    ensures Build(a + b) == Build(a) + Build(b)
  {
    if b != [] {
      BuildConcat(a, b[..|b| - 1]);
      assert (a + b)[..|a + b| - 1] == a + b[..|b| - 1];
    } else {
      assert a + b == a;
    }
  }
}
