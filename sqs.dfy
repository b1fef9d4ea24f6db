/** The message-attribute cleaner of `django_splint.utils.aws.sqs`: before a
    message is sent, every nested attribute dict loses its falsy entries and
    has the first letter of every other key upper-cased, in place. */
module Sqs {
  import opened Py

  // ---------------------------------------------------------------------
  // Capitalising a key
  // ---------------------------------------------------------------------

  predicate IsLower(c: char) { 'a' <= c <= 'z' }
  predicate IsUpper(c: char) { 'A' <= c <= 'Z' }

  /** `str.upper` on one character, for ASCII letters. */
  function Upper(c: char): (u: char)
    ensures IsLower(c) ==> IsUpper(u) && u as int == c as int - 32
    ensures !IsLower(c) ==> u == c
  {
    if IsLower(c) then (c as int - 32) as char else c
  }

  /** `subk[:1].upper() + subk[1:]`. */
  function Cap(k: string): (r: string)
    ensures |r| == |k|
    ensures k != "" ==> r[0] == Upper(k[0]) && r[1..] == k[1..]
  {
    if k == "" then "" else [Upper(k[0])] + k[1..]
  }

  /** The one other key that capitalises to `K`, when there is one: `K`
      with its upper-case first letter lowered. Otherwise `K` itself. */
  function LowerVariant(K: string): (l: string)
    ensures |l| == |K|
  {
    if K != "" && IsUpper(K[0]) then [(K[0] as int + 32) as char] + K[1..] else K
  }

  /** Capitalising twice is capitalising once, and never yields a
      lower-case first letter. */
  lemma CapIdempotent(k: string)
    ensures Cap(Cap(k)) == Cap(k)
    ensures Cap(k) != "" ==> !IsLower(Cap(k)[0])
  {
  }

  /** Exactly two keys can capitalise to the same key: the key and its lower
      variant. */
  lemma CapPreimage(k: string, K: string)
    requires Cap(k) == K
    ensures k == K || (k == LowerVariant(K) && k != K)
  {
    if k != "" {
      assert k == [k[0]] + k[1..];
      assert K == [K[0]] + K[1..];
    }
  }

  lemma LowerVariantCap(K: string)
    requires LowerVariant(K) != K
    ensures Cap(LowerVariant(K)) == K && Cap(K) == K
    ensures LowerVariant(LowerVariant(K)) == LowerVariant(K)
  {
    assert K == [K[0]] + K[1..];
  }

  lemma CapLowerVariant(k: string)
    requires Cap(k) != k
    ensures LowerVariant(Cap(k)) == k && LowerVariant(k) == k
  {
    assert k == [k[0]] + k[1..];
  }

  // ---------------------------------------------------------------------
  // What the inner loop computes
  // ---------------------------------------------------------------------

  /** The capitalised forms of the keys of `P` whose original value is truthy. */
  function CapsOf(orig: map<string, Value>, P: set<string>): set<string> {
    set l | l in P && l in orig && Truthy(orig[l]) :: Cap(l)
  }

  /** The value at `K` once the keys `P` have been processed: the value of
      its lower variant if that was truthy and processed, else its own. */
  function Val(orig: map<string, Value>, P: set<string>, K: string): Value {
    var l := LowerVariant(K);
    if l != K && l in P && l in orig && Truthy(orig[l]) then orig[l]
    else if K in orig then orig[K] else Null
  }

  /** An inner dict once the keys `P` of the original `orig` have been
      processed, in whatever order: the unprocessed keys are still there,
      and each processed truthy key sits under its capitalised form. */
  function Mid(orig: map<string, Value>, P: set<string>): map<string, Value> {
    map K | K in (orig.Keys - P) + CapsOf(orig, P) :: Val(orig, P, K)
  }

  /** An inner dict after `_sqs_attributes_cleaner` has processed every key. */
  function Cleaned(m: map<string, Value>): map<string, Value> {
    Mid(m, m.Keys)
  }

  /** One iteration of the inner loop on the dict's contents: a falsy entry
      is deleted; a truthy one is popped and stored under its capitalised
      key, overwriting whatever was there. */
  function Step(m: map<string, Value>, k: string): map<string, Value>
    requires k in m
  {
    if Truthy(m[k]) then (m - {k})[Cap(k) := m[k]] else m - {k}
  }

  /** Nothing is processed yet. */
  lemma MidStart(orig: map<string, Value>)
    ensures Mid(orig, {}) == orig
  {
    assert CapsOf(orig, {}) == {};
  }

  /** A key capitalising to an already processed truthy key is its own
      capital form. */
  lemma InCaps(orig: map<string, Value>, P: set<string>, k: string)
    requires k in CapsOf(orig, P) && k !in P
    ensures Cap(k) == k
    ensures LowerVariant(k) != k && LowerVariant(k) in P && LowerVariant(k) in orig && Truthy(orig[LowerVariant(k)])
  {
    var l :| l in P && l in orig && Truthy(orig[l]) && Cap(l) == k;
    CapPreimage(l, k);
    LowerVariantCap(k);
  }

  /** Processing one more key adds its capital form when its value is truthy. */
  lemma CapsOfAdd(orig: map<string, Value>, P: set<string>, k: string)
    requires k in orig
    ensures CapsOf(orig, P + {k}) == CapsOf(orig, P) + (if Truthy(orig[k]) then {Cap(k)} else {})
  {
  }

  /** The keys after one more key is processed. */
  lemma MidStepKeys(orig: map<string, Value>, P: set<string>, k: string)
    requires P <= orig.Keys && k in orig && k !in P
    ensures k in Mid(orig, P)
    ensures var v := Mid(orig, P)[k];
      Mid(orig, P + {k}).Keys ==
        if Truthy(v) then Mid(orig, P).Keys - {k} + {Cap(k)} else Mid(orig, P).Keys - {k}
  {
    var caps := CapsOf(orig, P);
    assert Mid(orig, P).Keys == (orig.Keys - P) + caps;
    assert Mid(orig, P + {k}).Keys == (orig.Keys - P - {k}) + CapsOf(orig, P + {k});
    CapsOfAdd(orig, P, k);
    var v := Val(orig, P, k);
    if k in caps {
      InCaps(orig, P, k);
    }
    if Truthy(v) && !Truthy(orig[k]) {
      LowerVariantCap(k);
      assert Cap(LowerVariant(k)) in caps;
    }
    KeysAlgebra(orig.Keys - P, caps, k, Cap(k), Truthy(orig[k]), Truthy(v));
  }

  /** The set algebra behind `MidStepKeys`. */
  lemma KeysAlgebra(R: set<string>, caps: set<string>, k: string, c: string, addC: bool, truthy: bool)
    requires k in R
    requires k in caps ==> c == k && truthy
    requires addC ==> truthy
    requires truthy && !addC ==> k in caps
    ensures (R - {k}) + caps + (if addC then {c} else {}) ==
      if truthy then (R + caps) - {k} + {c} else (R + caps) - {k}
  {
  }

  /** The values after one more key is processed. */
  lemma MidStepValue(orig: map<string, Value>, P: set<string>, k: string, K: string)
    requires P <= orig.Keys && k in orig && k !in P
    ensures var v := Val(orig, P, k);
      Val(orig, P + {k}, K) == if Truthy(v) && K == Cap(k) then v else Val(orig, P, K)
  {
    var v := Val(orig, P, k);
    if LowerVariant(K) == k && k != K {
      LowerVariantCap(K);
      if Truthy(orig[k]) {
        CapLowerVariant(k);
      }
    } else if Truthy(v) && K == Cap(k) && Cap(k) != k {
      CapLowerVariant(k);
    }
  }

  /** Processing one more key is one `Step`. */
  lemma MidStep(orig: map<string, Value>, P: set<string>, k: string)
    requires P <= orig.Keys && k in orig && k !in P
    ensures k in Mid(orig, P)
    ensures Mid(orig, P + {k}) == Step(Mid(orig, P), k)
  {
    MidStepKeys(orig, P, k);
    var M := Mid(orig, P);
    var N := Mid(orig, P + {k});
    var v := M[k];
    var S := if Truthy(v) then (M - {k})[Cap(k) := v] else M - {k};
    forall K | K in N
      ensures N[K] == S[K]
    {
      MidStepValue(orig, P, k, K);
      if !(Truthy(v) && K == Cap(k)) {
        assert K in M && K != k;
      }
    }
    MapsAgree(N, S);
  }

  lemma MapsAgree(a: map<string, Value>, b: map<string, Value>)
    requires a.Keys == b.Keys && forall K :: K in a ==> a[K] == b[K]
    ensures a == b
  {
  }

  // ---------------------------------------------------------------------
  // Properties of a cleaned dict
  // ---------------------------------------------------------------------

  /** The cleaned keys are the capitalised keys that had a truthy value. */
  lemma CleanedKeys(m: map<string, Value>)
    ensures forall K :: K in Cleaned(m) <==> exists k :: k in m && Truthy(m[k]) && Cap(k) == K
  {
    assert Cleaned(m).Keys == CapsOf(m, m.Keys);
  }

  /** Every cleaned value is truthy and sits under a capitalised key. A
      truthy key that needed capitalising keeps its value under its new
      name; an already capitalised truthy key keeps its value unless its
      lower-case twin was truthy too, in which case the twin's value wins,
      whichever of the two came first. */
  lemma CleanedValues(m: map<string, Value>)
    ensures forall K :: K in Cleaned(m) ==> Truthy(Cleaned(m)[K]) && Cap(K) == K
    ensures forall k :: k in m && Truthy(m[k]) && Cap(k) != k ==> Cleaned(m)[Cap(k)] == m[k]
    ensures forall k :: (k in m && Truthy(m[k]) && Cap(k) == k &&
      !(LowerVariant(k) != k && LowerVariant(k) in m && Truthy(m[LowerVariant(k)]))) ==> Cleaned(m)[k] == m[k]
  {
    forall K | K in Cleaned(m)
      ensures Truthy(Cleaned(m)[K]) && Cap(K) == K
    {
      var l :| l in m && Truthy(m[l]) && Cap(l) == K;
      CapPreimage(l, K);
      CapIdempotent(l);
    }
    forall k | k in m && Truthy(m[k]) && Cap(k) != k
      ensures Cleaned(m)[Cap(k)] == m[k]
    {
      CapLowerVariant(k);
      assert Cap(k) in CapsOf(m, m.Keys);
    }
  }

  /** Cleaning a cleaned dict changes nothing. */
  lemma CleanedIdempotent(m: map<string, Value>)
    ensures Cleaned(Cleaned(m)) == Cleaned(m)
  {
    var c := Cleaned(m);
    CleanedValues(m);
    forall K | K in c
      ensures LowerVariant(K) == K || LowerVariant(K) !in c
    {
      if LowerVariant(K) != K {
        LowerVariantCap(K);
      }
    }
    CleanedFixpoint(c);
  }

  /** A dict of truthy values under capitalised keys, none with its
      lower-case twin, is left alone by the cleaner. */
  lemma CleanedFixpoint(c: map<string, Value>)
    requires forall K :: K in c ==> Truthy(c[K]) && Cap(K) == K
    requires forall K :: K in c ==> LowerVariant(K) == K || LowerVariant(K) !in c
    ensures Cleaned(c) == c
  {
    assert CapsOf(c, c.Keys) == c.Keys by {
      forall K | K in c ensures K in CapsOf(c, c.Keys) {
        assert Cap(K) == K;
      }
    }
  }

  // ---------------------------------------------------------------------
  // The cleaner
  // ---------------------------------------------------------------------

  /** `keys` without `k`, order kept. */
  function Remove(keys: seq<string>, k: string): (r: seq<string>)
    ensures forall x :: x in r <==> x in keys && x != k
    ensures Distinct(keys) ==> Distinct(r)
    ensures |r| <= |keys|
  {
    if keys == [] then []
    else if keys[0] == k then Remove(keys[1..], k)
    else
      var rest := Remove(keys[1..], k);
      assert Distinct(keys) ==> keys[0] !in keys[1..];
      [keys[0]] + rest
  }

  ghost function SetOf(keys: seq<string>): set<string> {
    set x | x in keys
  }

  /** The key order after one step: `del` and `pop` take the key out, and
      the assignment appends its capitalised form unless that key is
      already there, in which case its place is kept. */
  function StepKeys(keys: seq<string>, m: map<string, Value>, k: string): seq<string>
    requires k in m
  {
    var rest := Remove(keys, k);
    if Truthy(m[k]) && Cap(k) !in rest then rest + [Cap(k)] else rest
  }

  lemma StepWellFormed(keys: seq<string>, m: map<string, Value>, k: string)
    requires DictWellFormed(keys, m) && k in m
    ensures DictWellFormed(StepKeys(keys, m, k), Step(m, k))
    ensures |Step(m, k)| <= |m|
  {
    var rest := Remove(keys, k);
    if Truthy(m[k]) && Cap(k) !in rest {
      assert forall i :: 0 <= i < |rest| ==> rest[i] in rest;
    }
    assert |m - {k}| == |m| - 1;
  }

  /** The inner loop: for each key of a snapshot of the dict's keys, delete
      it when its value is falsy, otherwise move it to its capitalised key.
      Each original key is processed once and the dict never grows. */
  method CleanInner(keys: seq<string>, m: map<string, Value>) returns (keys': seq<string>, m': map<string, Value>)
    requires DictWellFormed(keys, m)
    ensures DictWellFormed(keys', m')
    ensures m' == Cleaned(m)
    ensures |m'| <= |m|
  {
    keys' := keys;
    m' := m;
    MidStart(m);
    var j := 0;
    while j < |keys|
      invariant 0 <= j <= |keys|
      invariant SetOf(keys[..j]) <= m.Keys
      invariant m' == Mid(m, SetOf(keys[..j]))
      invariant DictWellFormed(keys', m')
      invariant |m'| <= |m|
    {
      var k := keys[j];
      SnapshotStep(keys, j);
      MidStep(m, SetOf(keys[..j]), k);
      StepWellFormed(keys', m', k);
      keys' := StepKeys(keys', m', k);
      m' := Step(m', k);
      j := j + 1;
    }
    assert keys[..j] == keys;
    SetOfKeys(keys, m);
  }

  lemma SetOfKeys(keys: seq<string>, m: map<string, Value>)
    requires DictWellFormed(keys, m)
    ensures SetOf(keys) == m.Keys
  {
  }

  /** The snapshot prefix grows by a key not processed before. */
  lemma SnapshotStep(keys: seq<string>, j: nat)
    requires Distinct(keys) && j < |keys|
    ensures keys[j] !in SetOf(keys[..j])
    ensures SetOf(keys[..j + 1]) == SetOf(keys[..j]) + {keys[j]}
  {
    assert keys[..j + 1] == keys[..j] + [keys[j]];
  }

  /** The `MessageAttributes` dict a caller passes to `send_message`, which the
      cleaner rewrites in place. */
  class Attributes {
    var keys: seq<string>
    var entries: map<string, Value>

    /** Every dict involved, the outer one and each inner one, is well formed. */
    ghost predicate Valid()
      reads this
    {
      DictWellFormed(keys, entries) && InnerWellFormed(entries)
    }

    constructor (keys: seq<string>, entries: map<string, Value>)
      requires DictWellFormed(keys, entries)
      requires InnerWellFormed(entries)
      ensures Valid() && this.keys == keys && this.entries == entries
    {
      this.keys := keys;
      this.entries := entries;
    }

    /** `_sqs_attributes_cleaner`: over a snapshot of the outer keys, each
        value that is a dict is cleaned; every other value, and the outer
        keys and their order, stay as they were. */
    method Clean()
      requires Valid()
      modifies this
      ensures Valid()
      ensures keys == old(keys) && entries.Keys == old(entries.Keys)
      ensures forall k :: k in entries ==>
        if old(entries)[k].Dict? then entries[k].Dict? && entries[k].fields == Cleaned(old(entries)[k].fields)
        else entries[k] == old(entries)[k]
    {
      assert CleanedUpTo(entries, entries, {});
      var snapshot := keys;
      var j := 0;
      while j < |snapshot|
        invariant 0 <= j <= |snapshot|
        invariant Valid() && keys == old(keys) && entries.Keys == old(entries.Keys)
        invariant CleanedUpTo(old(entries), entries, SetOf(snapshot[..j]))
      {
        var k := snapshot[j];
        SnapshotStep(snapshot, j);
        CleanAt(k, old(entries), SetOf(snapshot[..j]));
        j := j + 1;
      }
      assert snapshot[..j] == snapshot;
      assert SetOf(snapshot) == entries.Keys;
    }

    /** One iteration of the outer loop: the dict under `k`, if it is one,
        is cleaned. */
    method CleanAt(k: string, ghost before: map<string, Value>, ghost done: set<string>)
      requires Valid() && k in entries && k !in done && entries.Keys == before.Keys
      requires CleanedUpTo(before, entries, done)
      modifies this
      ensures Valid() && keys == old(keys) && entries.Keys == old(entries.Keys)
      ensures CleanedUpTo(before, entries, done + {k})
    {
      if entries[k].Dict? {
        var ks, m := CleanInner(entries[k].keys, entries[k].fields);
        CleanedUpToStep(before, entries, done, k, Dict(ks, m));
        InnerWellFormedUpdate(entries, k, Dict(ks, m));
        entries := entries[k := Dict(ks, m)];
      } else {
        CleanedUpToStep(before, entries, done, k, entries[k]);
        assert entries[k := entries[k]] == entries;
      }
    }
  }

  /** Each dict value of the outer dict is well formed. */
  ghost predicate InnerWellFormed(entries: map<string, Value>) {
    forall k :: k in entries && entries[k].Dict? ==> DictWellFormed(entries[k].keys, entries[k].fields)
  }

  lemma InnerWellFormedUpdate(entries: map<string, Value>, k: string, v: Value)
    requires InnerWellFormed(entries) && v.Dict? && DictWellFormed(v.keys, v.fields)
    ensures InnerWellFormed(entries[k := v])
  {
  }

  /** The outer keys in `done` hold their cleaned dicts; every other value is
      still the one in `before`. */
  ghost predicate CleanedUpTo(before: map<string, Value>, after: map<string, Value>, done: set<string>) {
    forall k :: k in after ==> (k in before &&
      if before[k].Dict? && k in done then after[k].Dict? && after[k].fields == Cleaned(before[k].fields)
      else after[k] == before[k])
  }

  /** Recording the outer key `k` as done. */
  lemma CleanedUpToStep(before: map<string, Value>, after: map<string, Value>, done: set<string>, k: string, v: Value)
    requires CleanedUpTo(before, after, done) && k in after && k !in done
    requires after[k].Dict? ==> v.Dict? && v.fields == Cleaned(after[k].fields)
    requires !after[k].Dict? ==> v == after[k]
    ensures CleanedUpTo(before, after[k := v], done + {k})
  {
  }

  /** `send_message`: the `MessageAttributes` argument (`null` when absent) is
      cleaned when it is a non-empty dict; the keyword arguments, holding that
      same dict, then go to the SQS client. Answers whether it cleaned. */
  method SendMessage(attributes: Attributes?) returns (cleaned: bool)
    requires attributes != null ==> attributes.Valid()
    modifies attributes
    ensures cleaned <==> attributes != null && old(attributes.entries) != map[]
    ensures attributes != null ==> attributes.Valid() && attributes.keys == old(attributes.keys)
    ensures attributes != null && !cleaned ==> attributes.entries == old(attributes.entries)
    ensures cleaned ==> forall k :: k in attributes.entries ==>
      if old(attributes.entries)[k].Dict? then attributes.entries[k].Dict? && attributes.entries[k].fields == Cleaned(old(attributes.entries)[k].fields)
      else attributes.entries[k] == old(attributes.entries)[k]
  {
    cleaned := attributes != null && attributes.entries != map[];
    if cleaned {
      attributes.Clean();
    }
  }
}
