/**
 * The query translator of `GET /api/items`: it turns the parsed query string into a
 * store filter (equality or `$in` per field), a sort specification, an inclusion
 * projection and the skip/limit pair.
 */
module QueryTranslator {
  import opened Wrappers
  import opened Js
  import Text

  /** Query keys that steer the listing and never become filter conditions. */
  const Reserved: set<string> := {"sort", "fields", "limit", "skip"}

  /**
   * The one property name whose assignment on a plain `{}` creates no own property:
   * `o["__proto__"] = v` runs the setter inherited from `Object.prototype` instead.
   */
  const ProtoKey: string := "__proto__"

  /** Property assignment `o[k] = v` on a plain object whose keys are unordered. */
  function SetProperty<V>(o: map<string, V>, k: string, v: V): map<string, V> {
    if k == ProtoKey then o else o[k := v]
  }

  /*
   * Value coercion and the filter
   */

  /**
   * `coerceValue`: the strings "true" and "false" become booleans (before any numeric
   * parsing), a value whose string form is not blank and parses as a number becomes
   * that number, and everything else comes back unchanged.
   */
  function CoerceValue(rt: Runtime, v: Value): (r: Value)
    ensures v == Str("true") ==> r == Bool(true)
    ensures v == Str("false") ==> r == Bool(false)
    ensures v != Str("true") && v != Str("false") && !Text.IsBlank(ToStr(rt, v)) && ToNumber(rt, v).Num?
      ==> r == Number(ToNumber(rt, v))
    ensures v != Str("true") && v != Str("false") && (Text.IsBlank(ToStr(rt, v)) || ToNumber(rt, v).NaN?)
      ==> r == v
    ensures v.Str? && Text.IsBlank(v.s) ==> r == v
  {
    Text.TrimEmptyIffBlank(ToStr(rt, v));
    if v == Str("true") then Bool(true)
    else if v == Str("false") then Bool(false)
    else
      var num := ToNumber(rt, v);
      if num.Num? && Text.Trim(ToStr(rt, v)) != "" then Number(num) else v
  }

  /** The elements of an `$in` list: one per comma-separated piece, each trimmed and coerced. */
  function InList(rt: Runtime, s: string): (r: seq<Value>)
    ensures |r| == |Text.Split(s, ',')|
    ensures forall i :: 0 <= i < |r| ==> r[i] == CoerceValue(rt, Str(Text.Trim(Text.Split(s, ',')[i])))
  {
    var pieces := Text.Split(s, ',');
    seq(|pieces|, i requires 0 <= i < |pieces| => CoerceValue(rt, Str(Text.Trim(pieces[i]))))
  }

  /**
   * The condition stored under one filter key: a string with a comma becomes
   * `{$in: [...]}`, any other value is coerced once.
   */
  function FilterCondition(rt: Runtime, v: Value): (r: Value)
    ensures v.Str? && ',' in v.s ==>
      && r.Object? && r.fields.Keys == {"$in"} && r.fields["$in"].Array?
      && |r.fields["$in"].elems| == |Text.Split(v.s, ',')|
      && (forall i :: 0 <= i < |r.fields["$in"].elems| ==>
            r.fields["$in"].elems[i] == CoerceValue(rt, Str(Text.Trim(Text.Split(v.s, ',')[i]))))
    ensures !(v.Str? && ',' in v.s) ==> r == CoerceValue(rt, v)
    ensures v.Str? ==> (',' in v.s <==> r.Object?)
  {
    if v.Str? && ',' in v.s then Object(map["$in" := Array(InList(rt, v.s))])
    else CoerceValue(rt, v)
  }

  /**
   * `buildFilterFromQuery`: one condition for every query key except the reserved ones
   * and `__proto__`, whose assignment creates no own property, and no other key.
   */
  method BuildFilterFromQuery(rt: Runtime, query: map<string, Value>) returns (filter: map<string, Value>)
    ensures filter.Keys == query.Keys - Reserved - {ProtoKey}
    ensures forall k :: k in filter ==> filter[k] == FilterCondition(rt, query[k])
  {
    filter := map[];
    var pending := query.Keys;
    while pending != {}
      invariant pending <= query.Keys
      invariant filter.Keys == (query.Keys - pending) - Reserved - {ProtoKey}
      invariant forall k :: k in filter ==> filter[k] == FilterCondition(rt, query[k])
      decreases pending
    {
      var key :| key in pending;
      if key !in Reserved {
        filter := SetProperty(filter, key, FilterCondition(rt, query[key]));
      }
      pending := pending - {key};
    }
  }

  /*
   * Field lists: `String(s).split(",").map((s) => s.trim()).filter(Boolean)`
   */

  /** The trimmed pieces that are not empty, in order. */
  function NonEmptyTrimmed(pieces: seq<string>): (r: seq<string>)
    ensures |r| <= |pieces|
    ensures forall i :: 0 <= i < |r| ==> r[i] != ""
  {
    if pieces == [] then []
    else
      var t := Text.Trim(pieces[0]);
      (if t == "" then [] else [t]) + NonEmptyTrimmed(pieces[1..])
  }

  /** A name is kept exactly when it is the non-empty trim of some piece. */
  lemma {:induction false} NonEmptyTrimmedMembers(pieces: seq<string>, p: string)
    ensures p in NonEmptyTrimmed(pieces) <==> p != "" && exists q :: q in pieces && Text.Trim(q) == p
  {
    if pieces != [] {
      NonEmptyTrimmedMembers(pieces[1..], p);
      assert forall q :: q in pieces <==> q == pieces[0] || q in pieces[1..];
    }
  }

  /** The field names listed in a `sort` or `fields` parameter. */
  function FieldList(rt: Runtime, v: Value): seq<string> {
    NonEmptyTrimmed(Text.Split(ToStr(rt, v), ','))
  }

  /*
   * Sort specifications: an ordered object from field name to 1 or -1
   */

  /** A JavaScript object from field names to directions, in property order. */
  type SortSpec = seq<(string, int)>

  /** The property names of a sort object, in order. */
  function Keys(o: SortSpec): (ks: seq<string>)
    ensures |ks| == |o|
  {
    if o == [] then [] else [o[0].0] + Keys(o[1..])
  }

  /** Property read `o[k]`. */
  function Lookup(o: SortSpec, k: string): Option<int> {
    if o == [] then None else if o[0].0 == k then Some(o[0].1) else Lookup(o[1..], k)
  }

  /**
   * Property assignment `o[k] = d`: `__proto__` creates no property, an existing property
   * keeps its place, a new one goes last.
   */
  function Assign(o: SortSpec, k: string, d: int): SortSpec {
    if k == ProtoKey then o
    else if o == [] then [(k, d)]
    else if o[0].0 == k then [(k, d)] + o[1..]
    else [o[0]] + Assign(o[1..], k, d)
  }

  /** Assignment adds its key at the end only when the key is new and not `__proto__`. */
  lemma {:induction false} AssignKeys(o: SortSpec, k: string, d: int)
    ensures Keys(Assign(o, k, d)) == if k == ProtoKey || k in Keys(o) then Keys(o) else Keys(o) + [k]
  {
    if k != ProtoKey && o != [] && o[0].0 != k {
      AssignKeys(o[1..], k, d);
      assert Keys(o) == [o[0].0] + Keys(o[1..]);
    }
  }

  /**
   * After `o[k] = d`, the own property `k` reads `d` unless `k` is `__proto__`, and every
   * other property is unchanged.
   */
  lemma {:induction false} AssignLookup(o: SortSpec, k: string, d: int, k': string)
    ensures Lookup(Assign(o, k, d), k') == if k' == k && k != ProtoKey then Some(d) else Lookup(o, k')
  {
    if k != ProtoKey && o != [] && o[0].0 != k {
      AssignLookup(o[1..], k, d, k');
    }
  }

  /** The field a sort segment names: a leading `-` is not part of it. */
  function SortField(p: string): string {
    if Text.StartsWith(p, "-") then p[1..] else p
  }

  /** The direction a sort segment asks for: -1 after a leading `-`, 1 otherwise. */
  function SortDirection(p: string): int {
    if Text.StartsWith(p, "-") then -1 else 1
  }

  /** The sort object built by assigning each segment in turn. */
  function SortOf(parts: seq<string>): SortSpec
    decreases |parts|
  {
    if parts == [] then []
    else
      var n := |parts| - 1;
      Assign(SortOf(parts[..n]), SortField(parts[n]), SortDirection(parts[n]))
  }

  /** The field names of a list of segments. */
  function Fields(parts: seq<string>): (fs: seq<string>)
    ensures |fs| == |parts|
  {
    seq(|parts|, i requires 0 <= i < |parts| => SortField(parts[i]))
  }

  /**
   * The own properties that assigning the names in turn creates: the distinct names other
   * than `__proto__`, in the order of their first occurrence.
   */
  function PropertyNames(xs: seq<string>): seq<string>
    decreases |xs|
  {
    if xs == [] then []
    else
      var n := |xs| - 1;
      if xs[n] == ProtoKey || xs[n] in xs[..n] then PropertyNames(xs[..n]) else PropertyNames(xs[..n]) + [xs[n]]
  }

  /** The property names are exactly the listed names other than `__proto__`. */
  lemma {:induction false} PropertyNamesMembers(xs: seq<string>, x: string)
    ensures x in PropertyNames(xs) <==> x in xs && x != ProtoKey
    decreases |xs|
  {
    if xs != [] {
      var n := |xs| - 1;
      PropertyNamesMembers(xs[..n], x);
      assert xs == xs[..n] + [xs[n]];
    }
  }

  /** The direction of the last segment that names `k`, if any does. */
  function LastDirection(parts: seq<string>, k: string): Option<int>
    decreases |parts|
  {
    if parts == [] then None
    else
      var n := |parts| - 1;
      if SortField(parts[n]) == k then Some(SortDirection(parts[n])) else LastDirection(parts[..n], k)
  }

  /**
   * The sort object's keys are the distinct fields other than `__proto__`, in the order
   * they first appear.
   */
  lemma {:induction false} SortOfKeys(parts: seq<string>)
    ensures Keys(SortOf(parts)) == PropertyNames(Fields(parts))
    decreases |parts|
  {
    if parts != [] {
      var n := |parts| - 1;
      var f, prev, fs := SortField(parts[n]), parts[..n], Fields(parts);
      assert fs[..n] == Fields(prev) && fs[n] == f;
      assert PropertyNames(fs) ==
        if f == ProtoKey || f in Fields(prev) then PropertyNames(Fields(prev)) else PropertyNames(Fields(prev)) + [f];
      SortOfKeys(prev);
      PropertyNamesMembers(Fields(prev), f);
      AssignKeys(SortOf(prev), f, SortDirection(parts[n]));
    }
  }

  /** For every field but `__proto__`, which is never stored, the last segment naming it decides its direction. */
  lemma {:induction false} SortOfLookup(parts: seq<string>, k: string)
    ensures Lookup(SortOf(parts), k) == if k == ProtoKey then None else LastDirection(parts, k)
    decreases |parts|
  {
    if parts != [] {
      var n := |parts| - 1;
      SortOfLookup(parts[..n], k);
      AssignLookup(SortOf(parts[..n]), SortField(parts[n]), SortDirection(parts[n]), k);
    }
  }

  /** Segments that all name `__proto__`, such as `-__proto__`, build the empty sort object. */
  lemma {:induction false} ProtoOnlySortIsEmpty(parts: seq<string>)
    requires forall i :: 0 <= i < |parts| ==> SortField(parts[i]) == ProtoKey
    ensures SortOf(parts) == []
    decreases |parts|
  {
    if parts != [] {
      ProtoOnlySortIsEmpty(parts[..|parts| - 1]);
    }
  }

  /**
   * `parseSort`: an absent or empty parameter gives `{}`; otherwise each non-empty
   * trimmed segment is assigned in turn, `-name` as -1 and `name` as 1.
   */
  method ParseSort(rt: Runtime, sortStr: Option<Value>) returns (sort: SortSpec)
    ensures !Truthy(sortStr) ==> sort == []
    ensures Truthy(sortStr) ==> sort == SortOf(FieldList(rt, sortStr.value))
    ensures Truthy(sortStr) ==> Keys(sort) == PropertyNames(Fields(FieldList(rt, sortStr.value)))
    ensures Truthy(sortStr) ==> forall k :: k != ProtoKey ==> Lookup(sort, k) == LastDirection(FieldList(rt, sortStr.value), k)
    ensures Lookup(sort, ProtoKey).None?
  {
    if !Truthy(sortStr) {
      return [];
    }
    var parts := FieldList(rt, sortStr.value);
    sort := SortFrom(parts);
    SortOfKeys(parts);
    forall k | k != ProtoKey ensures Lookup(sort, k) == LastDirection(parts, k) {
      SortOfLookup(parts, k);
    }
    SortOfLookup(parts, ProtoKey);
  }

  /** The loop of `parseSort`: each segment assigned in turn, `-name` as -1 and `name` as 1. */
  method SortFrom(parts: seq<string>) returns (sort: SortSpec)
    ensures sort == SortOf(parts)
  {
    sort := [];
    var i := 0;
    while i < |parts|
      invariant 0 <= i <= |parts|
      invariant sort == SortOf(parts[..i])
    {
      var p := parts[i];
      if Text.StartsWith(p, "-") {
        sort := Assign(sort, p[1..], -1);
      } else {
        sort := Assign(sort, p, 1);
      }
      assert parts[..i + 1][..i] == parts[..i];
      i := i + 1;
    }
    assert parts[..|parts|] == parts;
  }

  /*
   * Projection
   */

  /**
   * The inclusion projection of a list of field names, `for (const f of parts) proj[f] = 1`:
   * every listed name but `__proto__` maps to 1.
   */
  method ProjectionOf(parts: seq<string>) returns (proj: map<string, int>)
    ensures forall f :: f in proj <==> f in parts && f != ProtoKey
    ensures forall f :: f in proj ==> proj[f] == 1
  {
    proj := map[];
    var i := 0;
    while i < |parts|
      invariant 0 <= i <= |parts|
      invariant forall f :: f in proj <==> f in parts[..i] && f != ProtoKey
      invariant forall f :: f in proj ==> proj[f] == 1
    {
      assert parts[..i + 1] == parts[..i] + [parts[i]];
      proj := SetProperty(proj, parts[i], 1);
      i := i + 1;
    }
    assert parts[..|parts|] == parts;
  }

  /**
   * `parseProjection`: every listed field but `__proto__` maps to 1 (inclusion only);
   * nothing listed gives `{}`.
   */
  method ParseProjection(rt: Runtime, fieldsStr: Option<Value>) returns (proj: map<string, int>)
    ensures !Truthy(fieldsStr) ==> proj == map[]
    ensures Truthy(fieldsStr) ==> forall f :: f in proj <==> f in FieldList(rt, fieldsStr.value) && f != ProtoKey
    ensures forall f :: f in proj ==> proj[f] == 1
  {
    if !Truthy(fieldsStr) {
      return map[];
    }
    proj := ProjectionOf(FieldList(rt, fieldsStr.value));
  }

  /** An empty projection is not passed to the store at all. */
  function ProjectionOption(proj: map<string, int>): (r: Option<map<string, int>>)
    ensures r.None? <==> proj == map[]
    ensures r.Some? ==> r.value == proj
  {
    if |proj| == 0 then None else Some(proj)
  }

  /*
   * Paging
   */

  /** `Math.min(Number(req.query.limit || 50), 200)`. */
  function Limit(rt: Runtime, v: Option<Value>): (r: JsNumber)
    ensures r.Num? ==> r.value <= 200.0
    ensures !Truthy(v) ==> r == Num(50.0)
    ensures Truthy(v) ==> (r.NaN? <==> ToNumber(rt, v.value).NaN?)
    ensures Truthy(v) && ToNumber(rt, v.value).Num? ==>
      r == if ToNumber(rt, v.value).value <= 200.0 then ToNumber(rt, v.value) else Num(200.0)
  {
    MathMin(if Truthy(v) then ToNumber(rt, v.value) else Num(50.0), Num(200.0))
  }

  /** `Math.max(Number(req.query.skip || 0), 0)`. */
  function Skip(rt: Runtime, v: Option<Value>): (r: JsNumber)
    ensures r.Num? ==> r.value >= 0.0
    ensures !Truthy(v) ==> r == Num(0.0)
    ensures Truthy(v) ==> (r.NaN? <==> ToNumber(rt, v.value).NaN?)
    ensures Truthy(v) && ToNumber(rt, v.value).Num? ==>
      r == if ToNumber(rt, v.value).value >= 0.0 then ToNumber(rt, v.value) else Num(0.0)
  {
    MathMax(if Truthy(v) then ToNumber(rt, v.value) else Num(0.0), Num(0.0))
  }

  /** What `GET /api/items` hands to the store: `find(filter, {projection})`, then `sort`, `skip`, `limit`. */
  datatype FindPlan = FindPlan(
    filter: map<string, Value>,
    projection: Option<map<string, int>>,
    sort: Option<SortSpec>,
    skip: JsNumber,
    limit: JsNumber)

  /**
   * The query built by `GET /api/items`: the filter never mentions a reserved key, the
   * projection and the sort are passed only when non-empty, and the paging is clamped.
   */
  method BuildListQuery(rt: Runtime, query: map<string, Value>) returns (plan: FindPlan)
    ensures plan.filter.Keys == query.Keys - Reserved - {ProtoKey}
    ensures forall k :: k in plan.filter ==> plan.filter[k] == FilterCondition(rt, query[k])
    ensures plan.projection.Some? ==>
      plan.projection.value != map[] && forall f :: f in plan.projection.value ==> plan.projection.value[f] == 1
    ensures plan.projection.Some? <==>
      && Truthy(Prop(Some(Object(query)), "fields"))
      && exists f :: f in FieldList(rt, query["fields"]) && f != ProtoKey
    ensures plan.projection.Some? ==>
      forall f :: f in plan.projection.value <==> f in FieldList(rt, query["fields"]) && f != ProtoKey
    ensures plan.sort.Some? ==> plan.sort.value != []
    ensures plan.sort.Some? <==>
      && Truthy(Prop(Some(Object(query)), "sort"))
      && exists f :: f in Fields(FieldList(rt, query["sort"])) && f != ProtoKey
    ensures plan.sort.Some? ==> plan.sort.value == SortOf(FieldList(rt, query["sort"]))
    ensures plan.limit == Limit(rt, Prop(Some(Object(query)), "limit"))
    ensures plan.skip == Skip(rt, Prop(Some(Object(query)), "skip"))
  {
    var q := Some(Object(query));
    var filter := BuildFilterFromQuery(rt, query);
    var sort := ParseSort(rt, Prop(q, "sort"));
    var projection := ParseProjection(rt, Prop(q, "fields"));
    if Truthy(Prop(q, "fields")) {
      var parts := FieldList(rt, query["fields"]);
      if f :| f in parts && f != ProtoKey {
        assert f in projection;
      }
    }
    if Truthy(Prop(q, "sort")) {
      var fs := Fields(FieldList(rt, query["sort"]));
      SortOfKeys(FieldList(rt, query["sort"]));
      if f :| f in fs && f != ProtoKey {
        PropertyNamesMembers(fs, f);
      }
      if PropertyNames(fs) != [] {
        PropertyNamesMembers(fs, PropertyNames(fs)[0]);
      }
    }
    var limit := Limit(rt, Prop(q, "limit"));
    var skip := Skip(rt, Prop(q, "skip"));
    plan := FindPlan(filter, ProjectionOption(projection), if |sort| > 0 then Some(sort) else None, skip, limit);
  }
}
