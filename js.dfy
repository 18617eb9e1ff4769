/** The JavaScript values and plain objects the option-handling code works on:
    truthiness, `String(v)`, how `Array.prototype.join` prints an element,
    and objects as insertion-ordered property lists with assignment and
    `Object.assign`. */
module Js {
  import opened Common
  import opened Text

  /** The primitive values that flow through option objects. */
  datatype Val = Undefined | Null | Bool(b: bool) | Int(i: int) | Str(s: string)

  /** JavaScript truthiness: `undefined`, `null`, `false`, `0` and `''` are falsy. */
  predicate Truthy(v: Val) {
    match v
    case Undefined => false
    case Null => false
    case Bool(b) => b
    case Int(i) => i != 0
    case Str(s) => s != ""
  }

  /** lodash `isNil`. */
  predicate IsNil(v: Val) {
    v.Undefined? || v.Null?
  }

  function IntText(i: int): string {
    if i < 0 then "-" + NatToString(-i) else NatToString(i)
  }

  /** `String(v)`. */
  function ToString(v: Val): string {
    match v
    case Undefined => "undefined"
    case Null => "null"
    case Bool(b) => if b then "true" else "false"
    case Int(i) => IntText(i)
    case Str(s) => s
  }

  /** How `Array.prototype.join` prints one element: `null` and `undefined`
      become the empty string. */
  function JoinText(v: Val): string {
    if IsNil(v) then "" else ToString(v)
  }

  // ---------------------------------------------------------------- objects

  /** A plain object: its own enumerable properties in insertion order. */
  type Obj = seq<(string, Val)>

  function KeySeq(o: Obj): (r: seq<string>)
    ensures |r| == |o| && forall i :: 0 <= i < |o| ==> r[i] == o[i].0
  {
    seq(|o|, i requires 0 <= i < |o| => o[i].0)
  }

  predicate Has(o: Obj, k: string) {
    k in KeySeq(o)
  }

  predicate KeysDistinct(o: Obj) {
    forall i, j :: 0 <= i < j < |o| ==> o[i].0 != o[j].0
  }

  /** `o[k]`: a missing property reads as `undefined`. */
  function Get(o: Obj, k: string): (v: Val)
    ensures !Has(o, k) ==> v == Undefined
  {
    if o == [] then Undefined
    else if o[0].0 == k then o[0].1
    else Get(o[1..], k)
  }

  /** `o[k] = v`: an existing property keeps its place, a new one goes last. */
  function Put(o: Obj, k: string, v: Val): Obj
    requires KeysDistinct(o)
  {
    if o == [] then [(k, v)]
    else if o[0].0 == k then [(k, v)] + o[1..]
    else
      DistinctTail(o);
      [o[0]] + Put(o[1..], k, v)
  }

  /** Names stay distinct, and the list of names grows only by a new name. */
  lemma {:induction false} PutKeys(o: Obj, k: string, v: Val)
    requires KeysDistinct(o)
    ensures KeysDistinct(Put(o, k, v))
    ensures KeySeq(Put(o, k, v)) == if Has(o, k) then KeySeq(o) else KeySeq(o) + [k]
  {
    if o != [] {
      DistinctTail(o);
      if o[0].0 == k {
        PutHead(o, v);
      } else {
        PutKeys(o[1..], k, v);
        PutPast(o, k, v);
      }
    }
  }

  lemma PutHead(o: Obj, v: Val)
    requires KeysDistinct(o) && o != []
    ensures KeysDistinct(Put(o, o[0].0, v)) && Has(o, o[0].0) && KeySeq(Put(o, o[0].0, v)) == KeySeq(o)
  {
    var r := [(o[0].0, v)] + o[1..];
    assert KeySeq(r) == KeySeq(o);
    assert KeySeq(o)[0] == o[0].0;
    DistinctTail(o);
    DistinctCons((o[0].0, v), o[1..]);
  }

  lemma PutPast(o: Obj, k: string, v: Val)
    requires KeysDistinct(o) && o != [] && o[0].0 != k
    requires KeysDistinct(Put(o[1..], k, v)) && !Has(o[1..], o[0].0)
    requires KeySeq(Put(o[1..], k, v)) == if Has(o[1..], k) then KeySeq(o[1..]) else KeySeq(o[1..]) + [k]
    ensures KeysDistinct(Put(o, k, v))
    ensures KeySeq(Put(o, k, v)) == if Has(o, k) then KeySeq(o) else KeySeq(o) + [k]
  {
    var rest := Put(o[1..], k, v);
    var ks := KeySeq(o[1..]);
    assert Put(o, k, v) == [o[0]] + rest;
    assert KeySeq(o) == [o[0].0] + ks by {
      KeySeqCons(o[0], o[1..]);
      assert [o[0]] + o[1..] == o;
    }
    assert KeySeq([o[0]] + rest) == [o[0].0] + KeySeq(rest) by {
      KeySeqCons(o[0], rest);
    }
    if Has(o[1..], k) {
      assert Has(o, k);
    } else {
      assert !Has(o, k);
      AppendAssoc([o[0].0], ks, [k]);
    }
    assert !Has(rest, o[0].0);
    DistinctCons(o[0], rest);
  }

  lemma KeySeqCons(e: (string, Val), r: Obj)
    ensures KeySeq([e] + r) == [e.0] + KeySeq(r)
  {
    var a := KeySeq([e] + r);
    var b := [e.0] + KeySeq(r);
    forall i | 0 <= i < |a| ensures a[i] == b[i] {
      if i > 0 {
        assert ([e] + r)[i] == r[i - 1];
      }
    }
  }

  lemma DistinctTail(o: Obj)
    requires KeysDistinct(o) && o != []
    ensures KeysDistinct(o[1..]) && !Has(o[1..], o[0].0)
  {
    forall i | 0 <= i < |o| - 1 ensures KeySeq(o[1..])[i] != o[0].0 {
      assert o[1..][i] == o[i + 1];
    }
  }

  /** In an object with distinct names, reading an entry's name gives its value. */
  lemma {:induction false} GetAt(o: Obj, j: nat)
    requires KeysDistinct(o) && j < |o|
    ensures Get(o, o[j].0) == o[j].1
  {
    if j > 0 {
      GetAt(o[1..], j - 1);
    }
  }

  lemma DistinctCons(e: (string, Val), rest: Obj)
    requires KeysDistinct(rest) && !Has(rest, e.0)
    ensures KeysDistinct([e] + rest)
  {
    var r := [e] + rest;
    forall i, j | 0 <= i < j < |r| ensures r[i].0 != r[j].0 {
      assert r[j] == rest[j - 1];
      if i == 0 {
        assert KeySeq(rest)[j - 1] == rest[j - 1].0;
      } else {
        assert r[i] == rest[i - 1];
      }
    }
  }

  /** Assigning a property the object does not have appends it. */
  lemma {:induction false} PutNew(o: Obj, k: string, v: Val)
    requires KeysDistinct(o) && !Has(o, k)
    ensures Put(o, k, v) == o + [(k, v)]
  {
    if o != [] {
      assert KeySeq(o) == [o[0].0] + KeySeq(o[1..]);
      PutNew(o[1..], k, v);
      assert o == [o[0]] + o[1..];
    }
  }

  /** `PutNew` for a name checked against each entry. */
  lemma PutFresh(o: Obj, k: string, v: Val)
    requires KeysDistinct(o) && forall i :: 0 <= i < |o| ==> o[i].0 != k
    ensures Put(o, k, v) == o + [(k, v)] && KeysDistinct(o + [(k, v)])
  {
    PutNew(o, k, v);
    PutKeys(o, k, v);
  }

  /** Reading back after `o[k] = v` gives `v` at `k` and the old value elsewhere. */
  lemma {:induction false} PutGet(o: Obj, k: string, v: Val, k': string)
    requires KeysDistinct(o)
    ensures Get(Put(o, k, v), k') == if k' == k then v else Get(o, k')
  {
    if o != [] && o[0].0 != k {
      PutGet(o[1..], k, v, k');
    }
  }

  /** `Object.assign(o, src)`: the properties of `src` are written into `o`
      one after another, in `src`'s order. */
  function Assign(o: Obj, src: Obj): (r: Obj)
    requires KeysDistinct(o)
    ensures KeysDistinct(r)
    decreases |src|
  {
    if src == [] then o
    else
      PutKeys(o, src[0].0, src[0].1);
      Assign(Put(o, src[0].0, src[0].1), src[1..])
  }

  /** After `Object.assign(o, src)`, a key that `src` does not mention keeps
      its old value, and one that `src` mentions holds `src`'s last value for it. */
  lemma {:induction false} AssignGet(o: Obj, src: Obj, k: string)
    requires KeysDistinct(o)
    ensures Get(Assign(o, src), k) == if LastIn(src, k).Some? then LastIn(src, k).value else Get(o, k)
    decreases |src|
  {
    if src != [] {
      PutKeys(o, src[0].0, src[0].1);
      AssignGet(Put(o, src[0].0, src[0].1), src[1..], k);
      PutGet(o, src[0].0, src[0].1, k);
    }
  }

  /** The value of the last entry for `k` in a property list, if any. */
  function LastIn(src: Obj, k: string): Option<Val> {
    if src == [] then None
    else
      var later := LastIn(src[1..], k);
      if later.Some? then later
      else if src[0].0 == k then Some(src[0].1)
      else None
  }
}
