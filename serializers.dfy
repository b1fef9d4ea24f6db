/** The serializer helpers of `django_splint.api.serializers`: hiding protected
    field names, refusing request keys no field declares, trimming a
    serializer to a requested field list, and the string handling around a
    base64 image upload. */
module Serializers {
  import opened Py

  // ---------------------------------------------------------------------
  // Field names
  // ---------------------------------------------------------------------

  /** A protected name starts with an underscore. */
  predicate Protected(name: string) {
    StartsWith(name, "_")
  }

  /** `filter(lambda f: not f.startswith('_'), names)`: the public names, in
      their original order. */
  function PublicNames(names: seq<string>): (r: seq<string>)
    ensures |r| <= |names|
    ensures forall x :: x in r <==> x in names && !Protected(x)
  {
    if names == [] then []
    else if Protected(names[0]) then PublicNames(names[1..])
    else [names[0]] + PublicNames(names[1..])
  }

  /** Filtering a concatenation filters each part, so the relative order of
      the kept names is that of the input. */
  lemma {:induction false} PublicNamesAppend(a: seq<string>, b: seq<string>)
    ensures PublicNames(a + b) == PublicNames(a) + PublicNames(b)
  {
    if a == [] {
      assert a + b == b;
    } else {
      assert (a + b)[1..] == a[1..] + b;
      PublicNamesAppend(a[1..], b);
    }
  }

  /** Filtering twice changes nothing. */
  lemma {:induction false} PublicNamesIdempotent(names: seq<string>)
    ensures PublicNames(PublicNames(names)) == PublicNames(names)
  {
    if names != [] {
      PublicNamesIdempotent(names[1..]);
      if !Protected(names[0]) {
        assert ([names[0]] + PublicNames(names[1..]))[1..] == PublicNames(names[1..]);
      }
    }
  }

  /** A list with no protected name passes the filter unchanged. */
  lemma {:induction false} PublicNamesKeepsPublic(names: seq<string>)
    requires forall k :: 0 <= k < |names| ==> !Protected(names[k])
    ensures PublicNames(names) == names
  {
    if names != [] {
      PublicNamesKeepsPublic(names[1..]);
      assert [names[0]] + names[1..] == names;
    }
  }

  /** `get_field_names`: the inherited names (`super().get_field_names`, an
      input here), followed by `Meta.extra_fields` when that attribute is
      set and non-empty, with the protected names removed. */
  function GetFieldNames(inherited: seq<string>, extraFields: Option<seq<string>>): (r: seq<string>)
    ensures extraFields.None? ==> r == PublicNames(inherited)
    ensures extraFields.Some? ==> r == PublicNames(inherited) + PublicNames(extraFields.value)
    ensures forall x :: x in r <==>
      !Protected(x) && (x in inherited || (extraFields.Some? && x in extraFields.value))
  {
    var all := if extraFields.Some? && extraFields.value != [] then inherited + extraFields.value else inherited;
    PublicNamesAppend(inherited, if extraFields.Some? then extraFields.value else []);
    assert inherited + [] == inherited;
    PublicNames(all)
  }

  // ---------------------------------------------------------------------
  // Unknown-key validation
  // ---------------------------------------------------------------------

  /** The keys of `initial_data`: absent when the serializer was built
      without `data=`, one dict's keys, or the keys of each dict of a list. */
  datatype InitialData = Absent | Single(keys: set<string>) | Many(items: seq<set<string>>)

  /** The request keys `validate` never complains about. */
  const Skip: set<string> := {"csrfmiddlewaretoken"}

  /** The keys of every element of a list of dicts, pooled into one set. */
  function PooledKeys(items: seq<set<string>>): (r: set<string>)
    ensures forall k :: k in r <==> exists i :: 0 <= i < |items| && k in items[i]
  {
    if items == [] then {}
    else
      var rest := PooledKeys(items[1..]);
      assert forall k :: (exists i :: 1 <= i < |items| && k in items[i]) <==> k in rest by {
        forall k ensures (exists i :: 1 <= i < |items| && k in items[i]) <==> k in rest {
          if k in rest {
            var j :| 0 <= j < |items[1..]| && k in items[1..][j];
            assert k in items[j + 1];
          }
          if exists i :: 1 <= i < |items| && k in items[i] {
            var i :| 1 <= i < |items| && k in items[i];
            assert k in items[1..][i - 1];
          }
        }
      }
      items[0] + rest
  }

  /** The keys of `initial_data` that no field of the serializer declares. */
  function UnknownKeys(d: InitialData, fieldNames: set<string>): (u: set<string>)
    ensures d.Absent? ==> u == {}
    ensures d.Single? ==> u == d.keys - fieldNames
    ensures d.Many? ==> forall k :: k in u <==>
      k !in fieldNames && exists i :: 0 <= i < |d.items| && k in d.items[i]
  {
    match d
    case Absent => {}
    case Single(keys) => keys - fieldNames
    case Many(items) => PooledKeys(items) - fieldNames
  }

  /** The `ValidationError`, which reports every unknown key, the skipped
      ones included. */
  datatype ValidationError = UnknownFields(keys: set<string>)

  /** `validate(data)`: refuse the request when some unknown key is not in
      the skip set, otherwise hand `data` back untouched. There is nothing to
      check without `initial_data`. */
  function Validate<T>(d: InitialData, fieldNames: set<string>, data: T): (r: Result<T, ValidationError>)
    ensures r.Ok? <==> forall k :: k in UnknownKeys(d, fieldNames) ==> k in Skip
    ensures r.Ok? ==> r.value == data
    ensures r.Err? ==> r.error.keys == UnknownKeys(d, fieldNames)
  {
    var unknown := UnknownKeys(d, fieldNames);
    if unknown - Skip != {} then
      assert exists k :: k in unknown - Skip;
      Err(UnknownFields(unknown))
    else
      assert forall k :: k in unknown ==> k in Skip by {
        forall k | k in unknown ensures k in Skip {
          assert k !in unknown - Skip;
        }
      }
      Ok(data)
  }

  /** A list payload is accepted exactly when each of its dicts would be
      accepted on its own. */
  lemma ValidateManyIffEach<T>(items: seq<set<string>>, fieldNames: set<string>, data: T)
    ensures Validate(Many(items), fieldNames, data).Ok? <==>
      forall i :: 0 <= i < |items| ==> Validate(Single(items[i]), fieldNames, data).Ok?
  {
    if Validate(Many(items), fieldNames, data).Ok? {
      forall i | 0 <= i < |items| ensures Validate(Single(items[i]), fieldNames, data).Ok? {
        forall k | k in UnknownKeys(Single(items[i]), fieldNames) ensures k in Skip {
          assert k in UnknownKeys(Many(items), fieldNames);
        }
      }
    }
  }

  /** A payload whose keys are all declared fields or skipped keys passes. */
  lemma ValidateDeclared<T>(keys: set<string>, fieldNames: set<string>, data: T)
    requires keys <= fieldNames + Skip
    ensures Validate(Single(keys), fieldNames, data) == Ok(data)
  {
  }

  // ---------------------------------------------------------------------
  // Trimming a serializer to the requested fields
  // ---------------------------------------------------------------------

  /** The fields whose names are allowed, each with its original field. */
  function Restrict<F>(fields: map<string, F>, allowed: set<string>): (r: map<string, F>)
    ensures r.Keys == fields.Keys * allowed
    ensures forall k :: k in r ==> r[k] == fields[k]
  {
    map k | k in fields && k in allowed :: fields[k]
  }

  /** Trimming never adds a field and trimming twice is trimming once. */
  lemma RestrictShrinks<F>(fields: map<string, F>, allowed: set<string>)
    ensures Restrict(fields, allowed).Keys <= fields.Keys
    ensures Restrict(Restrict(fields, allowed), allowed) == Restrict(fields, allowed)
  {
  }

  /** `set(names)` of a list of names. */
  function NameSet(names: seq<string>): (s: set<string>)
    ensures forall x :: x in s <==> x in names
  {
    set i | 0 <= i < |names| :: names[i]
  }

  /** A `SplintSerializer`: its `fields` dict, from field name to field. The
      field objects themselves are of no concern here. */
  class SplintSerializer<F> {
    var fields: map<string, F>

    /** `__init__`: the superclass builds `declared`; a `fields=` argument
        then drops every field it does not name. Names in it that are no
        field are ignored. */
    constructor (declared: map<string, F>, fieldsArg: Option<seq<string>>)
      ensures fieldsArg.None? ==> fields == declared
      ensures fieldsArg.Some? ==> fields == Restrict(declared, NameSet(fieldsArg.value))
    {
      fields := declared;
      new;
      if fieldsArg.Some? {
        DropFields(NameSet(fieldsArg.value));
      }
    }

    /** The loop `for field_name in existing - allowed: self.fields.pop(field_name)`. */
    method DropFields(allowed: set<string>)
      modifies this
      ensures fields == Restrict(old(fields), allowed)
    {
      var drop := fields.Keys - allowed;
      while drop != {}
        invariant drop !! allowed && drop <= fields.Keys
        invariant fields.Keys == old(fields).Keys * (allowed + drop)
        invariant forall k :: k in fields ==> fields[k] == old(fields)[k]
        decreases |drop|
      {
        var f :| f in drop;
        fields := fields - {f};
        drop := drop - {f};
      }
      RestrictAgrees(old(fields), allowed, fields);
    }
  }

  /** A map with the keys and the values of a restriction is that restriction. */
  lemma RestrictAgrees<F>(fields: map<string, F>, allowed: set<string>, m: map<string, F>)
    requires m.Keys == fields.Keys * allowed
    requires forall k :: k in m ==> m[k] == fields[k]
    ensures m == Restrict(fields, allowed)
  {
  }

  // ---------------------------------------------------------------------
  // Base64 image uploads
  // ---------------------------------------------------------------------

  /** `t` occurs in `s` starting at index `i`. */
  predicate OccursAt(s: string, t: string, i: nat) {
    i + |t| <= |s| && s[i..i + |t|] == t
  }

  /** The leftmost occurrence of `t` in `s` at or after `from`, as
      `str.find` finds it. */
  function Find(s: string, t: string, from: nat): (r: Option<nat>)
    ensures r.Some? ==> from <= r.value && OccursAt(s, t, r.value)
    ensures r.Some? ==> forall j :: from <= j < r.value ==> !OccursAt(s, t, j)
    ensures r.None? ==> forall j :: from <= j ==> !OccursAt(s, t, j)
    decreases |s| - from
  {
    if from + |t| > |s| then None
    else if OccursAt(s, t, from) then Some(from)
    else Find(s, t, from + 1)
  }

  /** Python's `t in s`. */
  predicate Contains(s: string, t: string) {
    Find(s, t, 0).Some?
  }

  lemma ContainsIff(s: string, t: string)
    ensures Contains(s, t) <==> exists i :: OccursAt(s, t, i)
  {
    if exists i :: OccursAt(s, t, i) {
      var i :| OccursAt(s, t, i);
      assert Find(s, t, 0).Some?;
    }
  }

  /** An occurrence inside a piece of `s` is an occurrence in `s`. */
  lemma OccursInSlice(s: string, t: string, lo: nat, hi: nat, j: nat)
    requires lo <= hi <= |s| && OccursAt(s[lo..hi], t, j)
    ensures OccursAt(s, t, lo + j)
  {
    forall k | 0 <= k < |t| ensures s[lo + j..lo + j + |t|][k] == t[k] {
      assert s[lo..hi][j..j + |t|][k] == t[k];
    }
  }

  /** `s.split(sep)`: the pieces between the occurrences of `sep`, scanned
      from the left. */
  function Split(s: string, sep: string): (r: seq<string>)
    requires |sep| > 0
    ensures |r| >= 1
    ensures forall k :: 0 <= k < |r| ==> !Contains(r[k], sep)
    ensures |r| >= 2 <==> Contains(s, sep)
    decreases |s|
  {
    match Find(s, sep, 0)
    case None => [s]
    case Some(i) =>
      var head := s[..i];
      var rest := Split(s[i + |sep|..], sep);
      assert !Contains(head, sep) by {
        if Contains(head, sep) {
          var j := Find(head, sep, 0).value;
          OccursInSlice(s, sep, 0, i, j);
          assert false;
        }
      }
      [head] + rest
  }

  /** `sep.join(parts)`. */
  function Join(parts: seq<string>, sep: string): string {
    if parts == [] then ""
    else if |parts| == 1 then parts[0]
    else parts[0] + sep + Join(parts[1..], sep)
  }

  /** Joining the pieces of a split gives the string back. */
  lemma {:induction false} JoinSplit(s: string, sep: string)
    requires |sep| > 0
    ensures Join(Split(s, sep), sep) == s
    decreases |s|
  {
    match Find(s, sep, 0)
    case None =>
    case Some(i) =>
      JoinSplit(s[i + |sep|..], sep);
      assert s[i..i + |sep|] == sep;
      assert s == s[..i] + sep + s[i + |sep|..];
  }

  /** `sep` occurs twice in `s` without the two occurrences overlapping. */
  ghost predicate OccursTwice(s: string, sep: string) {
    exists i: nat, j: nat :: i + |sep| <= j && OccursAt(s, sep, i) && OccursAt(s, sep, j)
  }

  /** The split has more than two pieces exactly when `sep` occurs twice. */
  lemma SplitMoreThanTwo(s: string, sep: string)
    requires |sep| > 0
    ensures |Split(s, sep)| > 2 <==> OccursTwice(s, sep)
  {
    match Find(s, sep, 0)
    case None =>
    case Some(i) =>
      assert Split(s, sep) == [s[..i]] + Split(s[i + |sep|..], sep);
      if |Split(s, sep)| > 2 {
        TwiceFromRest(s, sep, i);
      }
      if OccursTwice(s, sep) {
        RestFromTwice(s, sep, i);
      }
  }

  /** A second occurrence after the first one makes two. */
  lemma TwiceFromRest(s: string, sep: string, i: nat)
    requires OccursAt(s, sep, i) && Contains(s[i + |sep|..], sep)
    ensures OccursTwice(s, sep)
  {
    var rest := s[i + |sep|..];
    var j := Find(rest, sep, 0).value;
    assert rest == s[i + |sep|..|s|];
    OccursInSlice(s, sep, i + |sep|, |s|, j);
    assert OccursAt(s, sep, i + |sep| + j);
  }

  /** With two occurrences, one lies after the leftmost. */
  lemma RestFromTwice(s: string, sep: string, i: nat)
    requires Find(s, sep, 0) == Some(i) && OccursTwice(s, sep)
    ensures Contains(s[i + |sep|..], sep)
  {
    var a: nat, b: nat :| a + |sep| <= b && OccursAt(s, sep, a) && OccursAt(s, sep, b);
    var rest := s[i + |sep|..];
    var j := b - i - |sep|;
    assert rest[j..j + |sep|] == s[b..b + |sep|];
    assert OccursAt(rest, sep, j);
    ContainsIff(rest, sep);
  }

  /** The separator of a data URI's header from its payload. */
  const Base64Marker: string := ";base64,"

  /** The `ValueError` of `header, data = data.split(';base64,')` when the
      marker occurs more than once. */
  datatype UploadError = TooManyValuesToUnpack

  /** The data-URI header test of `to_internal_value`. */
  predicate HasHeader(data: string) {
    Contains(data, "data:") && Contains(data, Base64Marker)
  }

  /** The text `to_internal_value` hands to the base64 decoder: a string
      carrying the `data:` and `;base64,` markers loses everything up to the
      marker; any other string is decoded whole. */
  function StripHeader(data: string): (r: Result<string, UploadError>)
    ensures !HasHeader(data) ==> r == Ok(data)
    ensures r.Err? <==> HasHeader(data) && OccursTwice(data, Base64Marker)
    ensures HasHeader(data) && r.Ok? ==>
      && !Contains(r.value, Base64Marker)
      && |Base64Marker + r.value| <= |data|
      && data[|data| - |Base64Marker + r.value|..] == Base64Marker + r.value
  {
    if HasHeader(data) then
      var parts := Split(data, Base64Marker);
      SplitMoreThanTwo(data, Base64Marker);
      if |parts| == 2 then
        JoinSplit(data, Base64Marker);
        assert Join(parts[1..], Base64Marker) == parts[1];
        assert data == parts[0] + Base64Marker + parts[1];
        assert data[|parts[0]|..] == Base64Marker + parts[1];
        Ok(parts[1])
      else
        Err(TooManyValuesToUnpack)
    else
      Ok(data)
  }

  /** `get_file_extension` around `imghdr.what`, whose answer (`None` when
      it recognises nothing) is an input: `jpeg` is spelled `jpg`. */
  function FileExtension(detected: Option<string>): (e: Option<string>)
    ensures e.None? <==> detected.None?
    ensures detected == Some("jpeg") ==> e == Some("jpg")
    ensures detected != Some("jpeg") ==> e == detected
  {
    if detected == Some("jpeg") then Some("jpg") else detected
  }

  /** The mapping never answers `jpeg` and applying it again changes nothing. */
  lemma FileExtensionNormal(detected: Option<string>)
    ensures FileExtension(detected) != Some("jpeg")
    ensures FileExtension(FileExtension(detected)) == FileExtension(detected)
  {
  }

  /** The name of the decoded file: the first twelve characters of a fresh
      UUID string (an input), a dot, and the extension, which `%s` renders
      as `None` when none was detected. */
  function CompleteFileName(uuid: string, detected: Option<string>): (n: string)
    ensures |uuid| >= 12 ==> |n| > 12 && n[..12] == uuid[..12] && n[12] == '.'
    ensures FileExtension(detected).Some? ==> n == Take(uuid, 12) + "." + FileExtension(detected).value
    ensures FileExtension(detected).None? ==> n == Take(uuid, 12) + ".None"
  {
    var ext := FileExtension(detected);
    Take(uuid, 12) + "." + (if ext.Some? then ext.value else "None")
  }
}
