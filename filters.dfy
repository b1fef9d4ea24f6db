/** `CustomFieldOrdering` of `django_splint.api.filters`: before the usual
    `order_by`, every ordering term that names a custom ordering runs that
    ordering's queryset callback. Querysets are of any type `Q`; the
    callbacks and `order_by` are inputs. */
module Filters {
  import opened Py

  /** `remove_order`: one leading `-` goes, nothing else changes. */
  function RemoveOrder(term: string): (r: string)
    ensures StartsWith(term, "-") ==> term == "-" + r
    ensures !StartsWith(term, "-") ==> r == term
  {
    if StartsWith(term, "-") then term[1..] else term
  }

  /** Only one `-` is removed, and a term stripped once is the field it
      names whether or not it was descending. */
  lemma RemoveOrderOnce(field: string)
    ensures RemoveOrder("-" + field) == field
    ensures !StartsWith(field, "-") ==> RemoveOrder(field) == field
    ensures RemoveOrder("--" + field) == "-" + field
  {
    assert ("--" + field)[1..] == "-" + field;
  }

  /** The list comprehension of `filter_queryset`: the stripped terms that
      are keys of `CUSTOM_QUERY_ORDERING`, in ordering order, repeats and all. */
  function CustomFields(ordering: seq<string>, custom: set<string>): (r: seq<string>)
    ensures |r| <= |ordering|
    ensures forall k :: 0 <= k < |r| ==> r[k] in custom
    ensures forall o :: o in ordering && RemoveOrder(o) in custom ==> RemoveOrder(o) in r
    ensures forall x :: x in r ==> exists o :: o in ordering && RemoveOrder(o) == x
  {
    if ordering == [] then []
    else
      var rest := CustomFields(ordering[1..], custom);
      assert forall o :: o in ordering[1..] ==> o in ordering;
      if RemoveOrder(ordering[0]) in custom then [RemoveOrder(ordering[0])] + rest else rest
  }

  /** The selection of a concatenation is the concatenation of the selections,
      so relative order is kept. */
  lemma {:induction false} CustomFieldsAppend(a: seq<string>, b: seq<string>, custom: set<string>)
    ensures CustomFields(a + b, custom) == CustomFields(a, custom) + CustomFields(b, custom)
  {
    if a == [] {
      assert a + b == b;
    } else {
      assert (a + b)[1..] == a[1..] + b;
      CustomFieldsAppend(a[1..], b, custom);
    }
  }

  /** Ordering on a field both ways selects its custom ordering twice. */
  lemma CustomFieldsKeepsDuplicates(field: string, custom: set<string>)
    requires field in custom && !StartsWith(field, "-")
    ensures CustomFields([field, "-" + field], custom) == [field, field]
  {
    RemoveOrderOnce(field);
    assert [field, "-" + field][1..] == ["-" + field];
  }

  /** The callbacks applied one after the other, first field first. */
  function ApplyAll<Q>(fields: seq<string>, callbacks: map<string, Q -> Q>, q: Q): Q
    requires forall k :: 0 <= k < |fields| ==> fields[k] in callbacks
  {
    if fields == [] then q else ApplyAll(fields[1..], callbacks, callbacks[fields[0]](q))
  }

  /** Running two lists of callbacks in turn is running their concatenation. */
  lemma {:induction false} ApplyAllAppend<Q>(a: seq<string>, b: seq<string>, callbacks: map<string, Q -> Q>, q: Q)
    requires forall k :: 0 <= k < |a| ==> a[k] in callbacks
    requires forall k :: 0 <= k < |b| ==> b[k] in callbacks
    ensures forall k :: 0 <= k < |a + b| ==> (a + b)[k] in callbacks
    ensures ApplyAll(a + b, callbacks, q) == ApplyAll(b, callbacks, ApplyAll(a, callbacks, q))
  {
    assert forall k :: 0 <= k < |a + b| ==> (a + b)[k] == (if k < |a| then a[k] else b[k - |a|]);
    if a != [] {
      assert (a + b)[1..] == a[1..] + b;
      ApplyAllAppend(a[1..], b, callbacks, callbacks[a[0]](q));
    } else {
      assert a + b == b;
    }
  }

  /** An ordering that names no custom field leaves the queryset to `order_by`. */
  lemma {:induction false} NoCustomNoCallback<Q>(ordering: seq<string>, callbacks: map<string, Q -> Q>, q: Q)
    requires forall k :: 0 <= k < |ordering| ==> RemoveOrder(ordering[k]) !in callbacks.Keys
    ensures CustomFields(ordering, callbacks.Keys) == []
    ensures ApplyAll(CustomFields(ordering, callbacks.Keys), callbacks, q) == q
  {
    if ordering != [] {
      NoCustomNoCallback(ordering[1..], callbacks, q);
    }
  }

  /** `filter_queryset`: with a non-empty ordering (from `get_ordering`, an
      input), the custom callbacks run in order on the queryset, and then
      `order_by` receives the original terms, `-` prefixes intact. Without
      one the queryset comes back as it was. */
  method FilterQueryset<Q>(ordering: Option<seq<string>>, queryset: Q, callbacks: map<string, Q -> Q>,
                           orderBy: (Q, seq<string>) -> Q) returns (r: Q)
    ensures ordering.None? || ordering.value == [] ==> r == queryset
    ensures ordering.Some? && ordering.value != [] ==>
      r == orderBy(ApplyAll(CustomFields(ordering.value, callbacks.Keys), callbacks, queryset), ordering.value)
  {
    if ordering.None? || ordering.value == [] {
      return queryset;
    }
    var fields := CustomFields(ordering.value, callbacks.Keys);
    var q := queryset;
    var k := 0;
    while k < |fields|
      invariant 0 <= k <= |fields|
      invariant ApplyAll(fields[k..], callbacks, q) == ApplyAll(fields, callbacks, queryset)
    {
      assert fields[k..][1..] == fields[k + 1..];
      q := callbacks[fields[k]](q);
      k := k + 1;
    }
    r := orderBy(q, ordering.value);
  }
}
