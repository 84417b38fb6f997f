/** Grouping near-identical rows: `_render_grouped_leaves` with its counts and cap, and `_group_refs_by_caller`. */
module Grouping {
  import opened Json

  // ----- grouping by a key -----

  predicate Distinct<K(==)>(ks: seq<K>) {
    forall i, j :: 0 <= i < j < |ks| ==> ks[i] != ks[j]
  }

  /** The keys in the order they are first seen. */
  function FirstSeen<K(==)>(key: Value -> K, rows: seq<Value>): (ks: seq<K>)
    ensures Distinct(ks)
  {
    if rows == [] then []
    else
      var before, k := FirstSeen(key, rows[..|rows| - 1]), key(rows[|rows| - 1]);
      if k in before then before else before + [k]
  }

  function Members<K(==)>(key: Value -> K, rows: seq<Value>, k: K): seq<Value> {
    if rows == [] then []
    else
      var last := rows[|rows| - 1];
      Members(key, rows[..|rows| - 1], k) + if key(last) == k then [last] else []
  }

  lemma {:induction false} SeenHaveMembers<K>(key: Value -> K, rows: seq<Value>, k: K)
    ensures k in FirstSeen(key, rows) <==> Members(key, rows, k) != []
  {
    if rows != [] {
      SeenHaveMembers(key, rows[..|rows| - 1], k);
    }
  }

  // ----- counting -----

  function Total<K(!new)>(ks: seq<K>, size: K -> nat): nat {
    if ks == [] then 0 else Total(ks[..|ks| - 1], size) + size(ks[|ks| - 1])
  }

  lemma {:induction false} TotalAppend<K(!new)>(a: seq<K>, b: seq<K>, size: K -> nat)
    ensures Total(a + b, size) == Total(a, size) + Total(b, size)
  {
    if b == [] {
      assert a + b == a;
    } else {
      assert (a + b)[..|a + b| - 1] == a + b[..|b| - 1];
      TotalAppend(a, b[..|b| - 1], size);
    }
  }

  lemma {:induction false} TotalAgrees<K(!new)>(ks: seq<K>, f: K -> nat, g: K -> nat)
    requires forall k :: k in ks ==> f(k) == g(k)
    ensures Total(ks, f) == Total(ks, g)
  {
    if ks != [] {
      TotalAgrees(ks[..|ks| - 1], f, g);
    }
  }

  lemma {:induction false} TotalBump<K(!new)>(ks: seq<K>, k: K, f: K -> nat, g: K -> nat)
    requires k in ks && Distinct(ks)
    requires forall x :: g(x) == f(x) + if x == k then 1 else 0
    ensures Total(ks, g) == Total(ks, f) + 1
  {
    var before := ks[..|ks| - 1];
    if ks[|ks| - 1] == k {
      TotalAgrees(before, f, g);
    } else {
      TotalBump(before, k, f, g);
    }
  }

  function Size<K(==,!new)>(key: Value -> K, rows: seq<Value>): K -> nat {
    k => |Members(key, rows, k)|
  }

  /** Every row is in exactly one group. */
  lemma {:induction false} GroupsCountEveryRow<K(!new)>(key: Value -> K, rows: seq<Value>)
    ensures Total(FirstSeen(key, rows), Size(key, rows)) == |rows|
  {
    if rows != [] {
      var front, last := rows[..|rows| - 1], rows[|rows| - 1];
      var before, k := FirstSeen(key, front), key(last);
      GroupsCountEveryRow(key, front);
      SeenHaveMembers(key, front, k);
      if k in before {
        TotalBump(before, k, Size(key, front), Size(key, rows));
      } else {
        TotalAgrees(before, Size(key, front), Size(key, rows));
        assert (before + [k])[..|before|] == before;
      }
    }
  }

  // ----- ranking: a stable sort by size, largest first -----

  function Place<K>(k: K, ranked: seq<K>, size: K -> nat): seq<K> {
    if ranked == [] || size(ranked[|ranked| - 1]) >= size(k) then ranked + [k]
    else Place(k, ranked[..|ranked| - 1], size) + [ranked[|ranked| - 1]]
  }

  /** `order.sort(key=count, reverse=True)`. */
  function Ranked<K>(ks: seq<K>, size: K -> nat): seq<K> {
    if ks == [] then [] else Place(ks[|ks| - 1], Ranked(ks[..|ks| - 1], size), size)
  }

  lemma {:induction false} PlaceAdds<K>(k: K, ranked: seq<K>, size: K -> nat)
    ensures multiset(Place(k, ranked, size)) == multiset(ranked) + multiset{k}
  {
    if !(ranked == [] || size(ranked[|ranked| - 1]) >= size(k)) {
      PlaceAdds(k, ranked[..|ranked| - 1], size);
      assert ranked == ranked[..|ranked| - 1] + [ranked[|ranked| - 1]];
    }
  }

  lemma OneMore<K>(ks: seq<K>, k: K)
    ensures multiset(ks + [k]) == multiset(ks) + multiset{k}
  {
  }

  lemma {:induction false} RankedPermutes<K>(ks: seq<K>, size: K -> nat)
    ensures multiset(Ranked(ks, size)) == multiset(ks)
  {
    if ks != [] {
      var before, last := ks[..|ks| - 1], ks[|ks| - 1];
      RankedPermutes(before, size);
      PlaceAdds(last, Ranked(before, size), size);
      OneMore(before, last);
      assert ks == before + [last];
    }
  }

  /** Larger first, and among equals the one `before` puts first. */
  predicate InRank<K>(ranked: seq<K>, size: K -> nat, before: (K, K) -> bool) {
    forall i, j :: 0 <= i < j < |ranked| ==>
      size(ranked[i]) > size(ranked[j]) || (size(ranked[i]) == size(ranked[j]) && before(ranked[i], ranked[j]))
  }

  lemma {:induction false} PlaceKeepsRank<K(!new)>(k: K, ranked: seq<K>, size: K -> nat, before: (K, K) -> bool)
    requires InRank(ranked, size, before) && forall x :: x in ranked ==> before(x, k)
    ensures InRank(Place(k, ranked, size), size, before)
  {
    if !(ranked == [] || size(ranked[|ranked| - 1]) >= size(k)) {
      var front, last := ranked[..|ranked| - 1], ranked[|ranked| - 1];
      PlaceKeepsRank(k, front, size, before);
      PlaceAdds(k, front, size);
      var placed := Place(k, front, size);
      forall i | 0 <= i < |placed|
        ensures size(placed[i]) > size(last) || (size(placed[i]) == size(last) && before(placed[i], last))
      {
        assert placed[i] in multiset(placed);
        assert placed[i] == k || placed[i] in front;
      }
    }
  }

  /** Where a key first stands. */
  function Position<K(==)>(ks: seq<K>, k: K): nat {
    if ks == [] || ks[0] == k then 0 else 1 + Position(ks[1..], k)
  }

  function Earlier<K(==,!new)>(ks: seq<K>): (K, K) -> bool {
    (a, b) => Position(ks, a) < Position(ks, b)
  }

  lemma {:induction false} PositionOf<K>(ks: seq<K>, i: nat)
    requires i < |ks| && Distinct(ks)
    ensures Position(ks, ks[i]) == i
  {
    if i > 0 {
      PositionOf(ks[1..], i - 1);
    }
  }

  lemma RankedHolds<K>(ks: seq<K>, size: K -> nat, x: K)
    ensures x in Ranked(ks, size) <==> x in ks
  {
    RankedPermutes(ks, size);
    assert x in multiset(Ranked(ks, size)) <==> x in multiset(ks);
  }

  lemma EarlierStands<K(!new)>(ks: seq<K>, n: nat, x: K)
    requires n < |ks| && Distinct(ks) && x in ks[..n]
    ensures Earlier(ks)(x, ks[n])
  {
    var i :| 0 <= i < n && ks[i] == x;
    PositionOf(ks, i);
    PositionOf(ks, n);
  }

  lemma {:induction false} RankedInRank<K(!new)>(ks: seq<K>, n: nat, size: K -> nat)
    requires n <= |ks| && Distinct(ks)
    ensures InRank(Ranked(ks[..n], size), size, Earlier(ks))
  {
    if n > 0 {
      RankedInRank(ks, n - 1, size);
      assert ks[..n][..n - 1] == ks[..n - 1];
      var ranked := Ranked(ks[..n - 1], size);
      forall x | x in ranked
        ensures Earlier(ks)(x, ks[n - 1])
      {
        RankedHolds(ks[..n - 1], size, x);
        EarlierStands(ks, n - 1, x);
      }
      PlaceKeepsRank(ks[n - 1], ranked, size, Earlier(ks));
    }
  }

  lemma {:induction false} TotalPermutes<K(!new)>(ks: seq<K>, size: K -> nat)
    ensures Total(Ranked(ks, size), size) == Total(ks, size)
  {
    if ks != [] {
      TotalPermutes(ks[..|ks| - 1], size);
      TotalPlace(ks[|ks| - 1], Ranked(ks[..|ks| - 1], size), size);
    }
  }

  lemma {:induction false} TotalPlace<K(!new)>(k: K, ranked: seq<K>, size: K -> nat)
    ensures Total(Place(k, ranked, size), size) == Total(ranked, size) + size(k)
  {
    if ranked == [] || size(ranked[|ranked| - 1]) >= size(k) {
      assert (ranked + [k])[..|ranked|] == ranked;
    } else {
      var placed := Place(k, ranked[..|ranked| - 1], size);
      TotalPlace(k, ranked[..|ranked| - 1], size);
      assert (placed + [ranked[|ranked| - 1]])[..|placed|] == placed;
    }
  }

  lemma {:induction false} PlaceAgrees<K(!new)>(k: K, ranked: seq<K>, f: K -> nat, g: K -> nat)
    requires f(k) == g(k) && forall x :: x in ranked ==> f(x) == g(x)
    ensures Place(k, ranked, f) == Place(k, ranked, g)
  {
    if !(ranked == [] || f(ranked[|ranked| - 1]) >= f(k)) {
      PlaceAgrees(k, ranked[..|ranked| - 1], f, g);
    }
  }

  lemma {:induction false} RankedAgrees<K(!new)>(ks: seq<K>, f: K -> nat, g: K -> nat)
    requires forall k :: k in ks ==> f(k) == g(k)
    ensures Ranked(ks, f) == Ranked(ks, g)
  {
    if ks != [] {
      var front, ranked := ks[..|ks| - 1], Ranked(ks[..|ks| - 1], f);
      RankedAgrees(front, f, g);
      RankedPermutes(front, f);
      forall x | x in ranked
        ensures f(x) == g(x)
      {
        assert x in multiset(ranked);
      }
      PlaceAgrees(ks[|ks| - 1], ranked, f, g);
    }
  }

  // ----- frontier leaves -----

  /** How `str` renders a value. */
  type Show = Value -> string

  function GetOr(v: Value, key: string, default: Value): Value {
    if key in AsFields(v) then AsFields(v)[key] else default
  }

  /** A malformed leaf is its own type and representation; otherwise the kind, and for some kinds what it is about. */
  datatype LeafKey = Malformed(leaf: Value) | Parts(parts: seq<string>)

  const UNMODELED := "unmodeled_callee"
  const FIELD_LOAD := "field_load_unresolved"
  const UNDER_RECOVERED := "arg_under_recovered"

  /** `_leaf_group_key`. */
  function KeyOfLeaf(show: Show, leaf: Value): LeafKey {
    if !leaf.Obj? then Malformed(leaf)
    else
      var kind := if Get(leaf, "kind").Str? then Get(leaf, "kind").text else show(Get(leaf, "kind"));
      if kind == UNMODELED || kind == UNDER_RECOVERED then Parts([kind, show(GetOr(Get(leaf, "callee"), "name", Str("?")))])
      else if kind == FIELD_LOAD then Parts([kind, show(Get(leaf, "base")), show(Get(leaf, "offset"))])
      else Parts([kind])
  }

  /** The kind a leaf states; what is no text is shown. */
  function KindOf(show: Show, leaf: Value): string {
    if Get(leaf, "kind").Str? then Get(leaf, "kind").text else show(Get(leaf, "kind"))
  }

  function CalleeOf(show: Show, leaf: Value): string {
    show(GetOr(Get(leaf, "callee"), "name", Str("?")))
  }

  /** Which leaves come together: malformed ones that are the same; else those of one kind that, where the kind is about
      a callee, name the same callee, and where it is about a field, have the same base and offset. */
  lemma LeavesComeTogetherExactlyWhen(show: Show, a: Value, b: Value)
    ensures KeyOfLeaf(show, a) == KeyOfLeaf(show, b) <==>
              if !a.Obj? || !b.Obj? then a == b
              else
                var kind := KindOf(show, a);
                && kind == KindOf(show, b)
                && (kind in {"unmodeled_callee", "arg_under_recovered"} ==> CalleeOf(show, a) == CalleeOf(show, b))
                && (kind == "field_load_unresolved" ==>
                      show(Get(a, "base")) == show(Get(b, "base")) && show(Get(a, "offset")) == show(Get(b, "offset")))
  {
    KindsDiffer();
    var x, y := KeyOfLeaf(show, a), KeyOfLeaf(show, b);
    if a.Obj? && b.Obj? {
      assert |x.parts| >= 1 && x.parts[0] == KindOf(show, a) && |y.parts| >= 1 && y.parts[0] == KindOf(show, b);
      if KindOf(show, a) in {UNMODELED, UNDER_RECOVERED} {
        assert x.parts[1] == CalleeOf(show, a);
      } else if KindOf(show, a) == FIELD_LOAD {
        assert x.parts[1] == show(Get(a, "base")) && x.parts[2] == show(Get(a, "offset"));
      }
    }
  }

  lemma KindsDiffer()
    ensures UNMODELED != UNDER_RECOVERED && UNMODELED != FIELD_LOAD && UNDER_RECOVERED != FIELD_LOAD
  {
    assert UNMODELED[0] != UNDER_RECOVERED[0] && UNMODELED[0] != FIELD_LOAD[0] && UNDER_RECOVERED[0] != FIELD_LOAD[0];
  }

  datatype Group = Group(rep: Value, count: nat)

  const TOP := 12

  /** What the listing says: the header's leaves and groups, the rows shown, and the tail's groups and leaves. */
  datatype Listing = Listing(total: nat, groups: nat, shown: seq<Group>, more: nat, moreLeaves: nat)

  function GroupOf(key: Value -> LeafKey, leaves: seq<Value>, k: LeafKey): Group
    requires Members(key, leaves, k) != []
  {
    Group(Members(key, leaves, k)[0], |Members(key, leaves, k)|)
  }

  /** The dictionary the first loop fills, and the order it first saw its keys in. */
  method GroupLeaves(key: Value -> LeafKey, leaves: seq<Value>) returns (groups: map<LeafKey, Group>, order: seq<LeafKey>)
    ensures order == FirstSeen(key, leaves)
    ensures forall k :: k in groups <==> k in order
    ensures forall k :: k in groups ==> Members(key, leaves, k) != [] && groups[k] == GroupOf(key, leaves, k)
  {
    groups, order := map[], [];
    for i := 0 to |leaves|
      invariant order == FirstSeen(key, leaves[..i])
      invariant forall k :: k in groups <==> k in order
      invariant forall k :: k in groups ==> Members(key, leaves[..i], k) != [] && groups[k] == GroupOf(key, leaves[..i], k)
    {
      assert leaves[..i + 1][..i] == leaves[..i];
      var k := key(leaves[i]);
      SeenHaveMembers(key, leaves[..i], k);
      if k in groups {
        groups := groups[k := groups[k].(count := groups[k].count + 1)];
      } else {
        groups := groups[k := Group(leaves[i], 1)];
        order := order + [k];
      }
    }
    assert leaves[..|leaves|] == leaves;
  }

  function LeafKeys(show: Show): Value -> LeafKey {
    leaf => KeyOfLeaf(show, leaf)
  }

  /** The groups as the listing ranks them. */
  function RankedGroups(key: Value -> LeafKey, leaves: seq<Value>): seq<LeafKey> {
    Ranked(FirstSeen(key, leaves), Size(key, leaves))
  }

  lemma RankedGroupsAreGroups(key: Value -> LeafKey, leaves: seq<Value>)
    ensures |RankedGroups(key, leaves)| == |FirstSeen(key, leaves)|
    ensures forall k :: k in RankedGroups(key, leaves) <==> k in FirstSeen(key, leaves)
    ensures forall k :: k in RankedGroups(key, leaves) ==> Members(key, leaves, k) != []
  {
    RankedPermutes(FirstSeen(key, leaves), Size(key, leaves));
    forall k
      ensures k in RankedGroups(key, leaves) <==> k in FirstSeen(key, leaves)
      ensures k in RankedGroups(key, leaves) ==> Members(key, leaves, k) != []
    {
      SeenHaveMembers(key, leaves, k);
      assert k in RankedGroups(key, leaves) <==> k in multiset(RankedGroups(key, leaves));
      assert k in FirstSeen(key, leaves) <==> k in multiset(FirstSeen(key, leaves));
    }
    assert |multiset(RankedGroups(key, leaves))| == |multiset(FirstSeen(key, leaves))|;
  }

  function CountOf(groups: map<LeafKey, Group>): LeafKey -> nat {
    k => if k in groups then groups[k].count else 0
  }

  function Shown(groups: seq<Group>): nat {
    if groups == [] then 0 else Shown(groups[..|groups| - 1]) + groups[|groups| - 1].count
  }

  predicate Lists(key: Value -> LeafKey, leaves: seq<Value>, ks: seq<LeafKey>, shown: seq<Group>) {
    && |shown| == |ks|
    && forall i :: 0 <= i < |shown| ==> Members(key, leaves, ks[i]) != [] && shown[i] == GroupOf(key, leaves, ks[i])
  }

  /** `_render_grouped_leaves`, for any reading of a leaf's key: the first twelve groups with their size and first
      leaf, the rest only counted. */
  method ListGroups(key: Value -> LeafKey, leaves: seq<Value>) returns (out: Listing)
    ensures var ranked := RankedGroups(key, leaves);
            var cut := if |ranked| <= TOP then |ranked| else TOP;
            && out.total == |leaves| && out.groups == |FirstSeen(key, leaves)|
            && Lists(key, leaves, ranked[..cut], out.shown)
            && out.more == |ranked| - cut && out.moreLeaves == Total(ranked[cut..], Size(key, leaves))
  {
    var groups, order := GroupLeaves(key, leaves);
    RankedAgrees(order, CountOf(groups), Size(key, leaves));
    order := Ranked(order, CountOf(groups));
    RankedGroupsAreGroups(key, leaves);
    var cut := if |order| <= TOP then |order| else TOP;
    var shown := ShowFirst(key, leaves, groups, order[..cut]);
    TotalAgrees(order[cut..], CountOf(groups), Size(key, leaves));
    out := Listing(|leaves|, |order|, shown, |order[cut..]|, Total(order[cut..], CountOf(groups)));
  }

  method ShowFirst(ghost key: Value -> LeafKey, ghost leaves: seq<Value>, groups: map<LeafKey, Group>, ks: seq<LeafKey>)
    returns (shown: seq<Group>)
    requires forall k :: k in ks ==> k in groups && Members(key, leaves, k) != [] && groups[k] == GroupOf(key, leaves, k)
    ensures Lists(key, leaves, ks, shown)
  {
    shown := [];
    for i := 0 to |ks|
      invariant |shown| == i
      invariant forall j :: 0 <= j < i ==> Members(key, leaves, ks[j]) != [] && shown[j] == GroupOf(key, leaves, ks[j])
    {
      shown := shown + [groups[ks[i]]];
    }
  }

  lemma {:induction false} ShownAddsUp(key: Value -> LeafKey, leaves: seq<Value>, ks: seq<LeafKey>, shown: seq<Group>)
    requires Lists(key, leaves, ks, shown)
    ensures Shown(shown) == Total(ks, Size(key, leaves))
  {
    if ks != [] {
      var n := |ks| - 1;
      ShownAddsUp(key, leaves, ks[..n], shown[..n]);
    }
  }

  /** Nothing is lost to the cap: the counts shown and the stated remainder add up to the header's total. */
  lemma CapConserves(key: Value -> LeafKey, leaves: seq<Value>, cut: nat, shown: seq<Group>)
    requires cut <= |RankedGroups(key, leaves)| && Lists(key, leaves, RankedGroups(key, leaves)[..cut], shown)
    ensures Shown(shown) + Total(RankedGroups(key, leaves)[cut..], Size(key, leaves)) == |leaves|
  {
    var ranked, size := RankedGroups(key, leaves), Size(key, leaves);
    ShownAddsUp(key, leaves, ranked[..cut], shown);
    TotalAppend(ranked[..cut], ranked[cut..], size);
    assert ranked[..cut] + ranked[cut..] == ranked;
    TotalPermutes(FirstSeen(key, leaves), size);
    GroupsCountEveryRow(key, leaves);
  }

  /** `_render_grouped_leaves`, as it keys leaves: the counts it prints and the remainder it states add up. */
  method RenderGroupedLeaves(show: Show, leaves: seq<Value>) returns (out: Listing)
    ensures Shown(out.shown) + out.moreLeaves == out.total == |leaves|
    ensures |out.shown| + out.more == out.groups == |FirstSeen(LeafKeys(show), leaves)|
    ensures |out.shown| <= TOP && (out.more > 0 ==> |out.shown| == TOP)
  {
    out := ListGroups(LeafKeys(show), leaves);
    RankedGroupsAreGroups(LeafKeys(show), leaves);
    CapConserves(LeafKeys(show), leaves, |out.shown|, out.shown);
  }

  /** The cap hides only groups no larger than any it shows, and among equals only ones first seen later. */
  lemma CapHidesTheSmallest(key: Value -> LeafKey, leaves: seq<Value>, i: nat, j: nat)
    requires i < j < |RankedGroups(key, leaves)|
    ensures var ranked, size := RankedGroups(key, leaves), Size(key, leaves);
            || size(ranked[i]) > size(ranked[j])
            || (size(ranked[i]) == size(ranked[j]) && Earlier(FirstSeen(key, leaves))(ranked[i], ranked[j]))
  {
    var order := FirstSeen(key, leaves);
    RankedInRank(order, |order|, Size(key, leaves));
    assert order[..|order|] == order;
  }

  // ----- references by caller -----

  /** What a reference is grouped by: its containing function, else its label, else its own address. */
  datatype RefKey = Function(address: string, name: string) | Labelled(text: string) | Site(address: string)

  function FirstSection(show: Show, sections: seq<Value>): string {
    if sections == [] then ""
    else if sections[0].Obj? && Truthy(Get(sections[0], "name")) then show(Get(sections[0], "name"))
    else FirstSection(show, sections[1..])
  }

  /** `_unknown_ref_label`. */
  function UnknownRefLabel(show: Show, context: Value): string {
    var name := Get(Get(context, "symbol"), "name");
    if Truthy(name) then show(name)
    else if Get(context, "sections").Arr? then FirstSection(show, Get(context, "sections").items) else ""
  }

  function SiteOf(show: Show, ref: Value): string {
    show(GetOr(ref, "address", Str("<unknown>")))
  }

  /** A reference's site is its address, or the text that says it has none. */
  lemma SiteIsItsAddress(show: Show, fields: map<string, Value>)
    ensures "address" in fields ==> SiteOf(show, Obj(fields)) == show(fields["address"])
    ensures "address" !in fields ==> SiteOf(show, Obj(fields)) == show(Str("<unknown>"))
  {
  }

  function KeyOfRef(show: Show, ref: Value): RefKey {
    var caller := Get(ref, "caller_function");
    if caller.Obj? then Function(show(Get(caller, "address")), show(Get(caller, "name")))
    else
      var own := Get(ref, "function");
      var resolved := UnknownRefLabel(show, Get(ref, "context"));
      var text := if resolved != "" then resolved else if own == Null then "" else show(own);
      if text != "" then Labelled(text) else Site(SiteOf(show, ref))
  }

  /** One caller: the reference that first named it, which its heading is read from, and its sites. */
  datatype Caller = Caller(first: Value, sites: seq<string>)

  type Sites = Value -> string

  function SitesOf(site: Sites, refs: seq<Value>): seq<string> {
    if refs == [] then [] else SitesOf(site, refs[..|refs| - 1]) + [site(refs[|refs| - 1])]
  }

  function Objects(refs: seq<Value>): seq<Value> {
    if refs == [] then []
    else Objects(refs[..|refs| - 1]) + if refs[|refs| - 1].Obj? then [refs[|refs| - 1]] else []
  }

  /** The objects of a list, each as often as it stands there, and nothing else. */
  lemma {:induction false} ObjectsOnly(refs: seq<Value>, v: Value)
    ensures multiset(Objects(refs))[v] == if v.Obj? then multiset(refs)[v] else 0
  {
    if refs != [] {
      var before, last := refs[..|refs| - 1], refs[|refs| - 1];
      ObjectsOnly(before, v);
      assert refs == before + [last];
    }
  }

  predicate IsCaller(key: Value -> RefKey, site: Sites, refs: seq<Value>, k: RefKey, c: Caller) {
    var members := Members(key, refs, k);
    members != [] && c == Caller(members[0], SitesOf(site, members))
  }

  lemma SitesSnoc(site: Sites, refs: seq<Value>, ref: Value)
    ensures SitesOf(site, refs + [ref]) == SitesOf(site, refs) + [site(ref)]
  {
    assert (refs + [ref])[..|refs|] == refs;
  }

  lemma OneMoreRef(key: Value -> RefKey, seen: seq<Value>, ref: Value, k: RefKey)
    ensures Members(key, seen + [ref], k) == Members(key, seen, k) + if key(ref) == k then [ref] else []
    ensures FirstSeen(key, seen + [ref]) ==
            FirstSeen(key, seen) + if key(ref) in FirstSeen(key, seen) then [] else [key(ref)]
    ensures k in FirstSeen(key, seen) <==> Members(key, seen, k) != []
  {
    assert (seen + [ref])[..|seen|] == seen;
    SeenHaveMembers(key, seen, k);
  }

  /** One more reference joins its own caller, first or last, and leaves every other as it was. */
  lemma CallerGrows(key: Value -> RefKey, site: Sites, seen: seq<Value>, ref: Value, k: RefKey, was: Option<Caller>)
    requires if was.Some? then IsCaller(key, site, seen, k, was.value) else Members(key, seen, k) == []
    ensures key(ref) != k && was.Some? ==> IsCaller(key, site, seen + [ref], k, was.value)
    ensures key(ref) == k ==>
              var c := if was.Some? then was.value else Caller(ref, []);
              IsCaller(key, site, seen + [ref], k, c.(sites := c.sites + [site(ref)]))
  {
    OneMoreRef(key, seen, ref, k);
    SitesSnoc(site, Members(key, seen, k), ref);
    assert Members(key, seen, k) + [] == Members(key, seen, k);
  }

  /** The dictionary of callers, and the order it first saw its keys in; what is not an object is passed over. */
  method CollectCallers(key: Value -> RefKey, site: Sites, refs: seq<Value>)
    returns (groups: map<RefKey, Caller>, order: seq<RefKey>)
    ensures order == FirstSeen(key, Objects(refs))
    ensures forall k :: k in groups <==> k in order
    ensures forall k :: k in groups ==> IsCaller(key, site, Objects(refs), k, groups[k])
  {
    groups, order := map[], [];
    ghost var seen: seq<Value> := [];
    for i := 0 to |refs|
      invariant seen == Objects(refs[..i]) && order == FirstSeen(key, seen)
      invariant forall k :: k in groups <==> k in order
      invariant forall k :: k in groups ==> IsCaller(key, site, seen, k, groups[k])
    {
      assert refs[..i + 1][..i] == refs[..i];
      var ref := refs[i];
      if !ref.Obj? { continue; }
      var k := key(ref);
      OneMoreRef(key, seen, ref, k);
      ghost var before := groups;
      if k !in groups {
        groups := groups[k := Caller(ref, [])];
        order := order + [k];
      }
      groups := groups[k := groups[k].(sites := groups[k].sites + [site(ref)])];
      forall j | j in groups
        ensures IsCaller(key, site, seen + [ref], j, groups[j])
      {
        CallerGrows(key, site, seen, ref, j, if j in before then Some(before[j]) else None);
      }
      seen := seen + [ref];
    }
    assert refs[..|refs|] == refs;
  }

  function RefKeys(show: Show): Value -> RefKey {
    ref => KeyOfRef(show, ref)
  }

  function RefSites(show: Show): Sites {
    ref => SiteOf(show, ref)
  }

  predicate CallersOf(key: Value -> RefKey, site: Sites, refs: seq<Value>, out: seq<Caller>) {
    var order := FirstSeen(key, refs);
    && |out| == |order|
    && forall i :: 0 <= i < |out| ==> IsCaller(key, site, refs, order[i], out[i])
  }

  /** `_group_refs_by_caller`: one group per key in first-seen order, with its own references' sites in order. */
  method GroupRefsByCaller(show: Show, refs: seq<Value>) returns (out: seq<Caller>)
    ensures CallersOf(RefKeys(show), RefSites(show), Objects(refs), out)
  {
    var groups, order := CollectCallers(RefKeys(show), RefSites(show), refs);
    out := InOrder(RefKeys(show), RefSites(show), Objects(refs), groups, order);
  }

  method InOrder(ghost key: Value -> RefKey, ghost site: Sites, ghost refs: seq<Value>,
                 groups: map<RefKey, Caller>, order: seq<RefKey>) returns (out: seq<Caller>)
    requires order == FirstSeen(key, refs)
    requires forall k :: k in order ==> k in groups && IsCaller(key, site, refs, k, groups[k])
    ensures CallersOf(key, site, refs, out)
  {
    out := [];
    for i := 0 to |order|
      invariant |out| == i
      invariant forall j :: 0 <= j < i ==> IsCaller(key, site, refs, order[j], out[j])
    {
      out := out + [groups[order[i]]];
    }
  }

  // ----- which references come together -----

  /** As many groups as rows exactly when no two rows share a key. */
  lemma {:induction false} ApartExactlyWhenKeysDiffer<K>(key: Value -> K, rows: seq<Value>)
    ensures |FirstSeen(key, rows)| <= |rows|
    ensures |FirstSeen(key, rows)| == |rows| <==> forall i, j :: 0 <= i < j < |rows| ==> key(rows[i]) != key(rows[j])
  {
    if rows != [] {
      var front, last := rows[..|rows| - 1], rows[|rows| - 1];
      ApartExactlyWhenKeysDiffer(key, front);
      SeenExactly(key, front, key(last));
      assert forall i :: 0 <= i < |front| ==> front[i] == rows[i];
    }
  }

  lemma {:induction false} SeenExactly<K>(key: Value -> K, rows: seq<Value>, k: K)
    ensures k in FirstSeen(key, rows) <==> exists i :: 0 <= i < |rows| && key(rows[i]) == k
  {
    if rows != [] {
      SeenExactly(key, rows[..|rows| - 1], k);
      assert forall i :: 0 <= i < |rows| - 1 ==> rows[..|rows| - 1][i] == rows[i];
    }
  }

  /** A reference's label: its symbol's name, else its first named section's, else its own function's. */
  predicate LabelIs(show: Show, ref: Value, text: string) {
    var symbol := Get(Get(Get(ref, "context"), "symbol"), "name");
    var sections := Get(Get(ref, "context"), "sections");
    var named := if sections.Arr? then FirstSection(show, sections.items) else "";
    var own := Get(ref, "function");
    text == if Truthy(symbol) && show(symbol) != "" then show(symbol)
            else if !Truthy(symbol) && named != "" then named
            else if own == Null then "" else show(own)
  }

  /** The first named section is the first that is an object with a name, and there is none exactly when none is. */
  lemma FirstSectionNamed(show: Show, sections: seq<Value>)
    ensures (forall k :: 0 <= k < |sections| ==> !Names(sections[k])) ==> FirstSection(show, sections) == ""
    ensures forall k :: FirstNamed(sections, k) ==> FirstSection(show, sections) == show(Get(sections[k], "name"))
  {
    if forall k :: 0 <= k < |sections| ==> !Names(sections[k]) {
      NoSectionNamed(show, sections);
    }
    forall k | FirstNamed(sections, k)
      ensures FirstSection(show, sections) == show(Get(sections[k], "name"))
    {
      SectionIsFound(show, sections, k);
    }
  }

  predicate FirstNamed(sections: seq<Value>, k: int) {
    0 <= k < |sections| && Names(sections[k]) && forall j :: 0 <= j < k ==> !Names(sections[j])
  }

  lemma {:induction false} NoSectionNamed(show: Show, sections: seq<Value>)
    requires forall k :: 0 <= k < |sections| ==> !Names(sections[k])
    ensures FirstSection(show, sections) == ""
  {
    if sections != [] {
      NoSectionNamed(show, sections[1..]);
    }
  }

  lemma {:induction false} SectionIsFound(show: Show, sections: seq<Value>, k: int)
    requires FirstNamed(sections, k)
    ensures FirstSection(show, sections) == show(Get(sections[k], "name"))
  {
    if k > 0 {
      assert !Names(sections[0]);
      SectionIsFound(show, sections[1..], k - 1);
    }
  }

  predicate Names(section: Value) { section.Obj? && Truthy(Get(section, "name")) }

  /** Which references come together: those inside one function, by its address and name; outside any, those of one
      label; and without a label, those at one address. */
  lemma RefsComeTogetherExactlyWhen(show: Show, a: Value, b: Value, la: string, lb: string)
    requires LabelIs(show, a, la) && LabelIs(show, b, lb)
    ensures var f, g := Get(a, "caller_function"), Get(b, "caller_function");
            KeyOfRef(show, a) == KeyOfRef(show, b) <==>
              if f.Obj? || g.Obj? then
                f.Obj? && g.Obj? && show(Get(f, "address")) == show(Get(g, "address"))
                && show(Get(f, "name")) == show(Get(g, "name"))
              else if la != "" || lb != "" then la == lb
              else SiteOf(show, a) == SiteOf(show, b)
  {
  }

  predicate AllUnlabelled(show: Show, refs: seq<Value>) {
    forall i :: 0 <= i < |refs| ==> refs[i].Obj? && KeyOfRef(show, refs[i]).Site?
  }

  lemma {:induction false} ObjectsOf(refs: seq<Value>)
    requires forall i :: 0 <= i < |refs| ==> refs[i].Obj?
    ensures Objects(refs) == refs
  {
    if refs != [] {
      ObjectsOf(refs[..|refs| - 1]);
    }
  }

  lemma SiteKeysStayApart(key: Value -> RefKey, site: Sites, refs: seq<Value>)
    requires forall i :: 0 <= i < |refs| ==> key(refs[i]) == Site(site(refs[i]))
    ensures |FirstSeen(key, refs)| == |refs| <==> forall i, j :: 0 <= i < j < |refs| ==> site(refs[i]) != site(refs[j])
  {
    ApartExactlyWhenKeysDiffer(key, refs);
  }

  /** References with no function and no label each get a group of their own exactly when their addresses differ. */
  lemma UnlabelledRefsStayApartByAddress(show: Show, refs: seq<Value>, out: seq<Caller>)
    requires AllUnlabelled(show, refs) && CallersOf(RefKeys(show), RefSites(show), Objects(refs), out)
    ensures |out| == |refs| <==> forall i, j :: 0 <= i < j < |refs| ==> SiteOf(show, refs[i]) != SiteOf(show, refs[j])
  {
    ObjectsOf(refs);
    forall i | 0 <= i < |refs|
      ensures RefKeys(show)(refs[i]) == Site(RefSites(show)(refs[i]))
    {
    }
    SiteKeysStayApart(RefKeys(show), RefSites(show), refs);
  }

  lemma TwoAlike(key: Value -> RefKey, site: Sites, ref: Value, out: seq<Caller>)
    requires CallersOf(key, site, [ref, ref], out)
    ensures |out| == 1 && out[0].sites == [site(ref), site(ref)]
  {
    OneMoreRef(key, [], ref, key(ref));
    OneMoreRef(key, [ref], ref, key(ref));
    assert [] + [ref] == [ref] && [ref] + [ref] == [ref, ref];
    assert FirstSeen(key, []) == [] && Members(key, [], key(ref)) == [];
    assert Members(key, [ref, ref], key(ref)) == [ref, ref];
    SitesSnoc(site, [], ref);
    SitesSnoc(site, [ref], ref);
  }

  /** Two references that state nothing at all come together: one group, both sites in it. */
  lemma SilentRefsComeTogether(show: Show, out: seq<Caller>)
    requires CallersOf(RefKeys(show), RefSites(show), Objects([Obj(map[]), Obj(map[])]), out)
    ensures |out| == 1 && out[0].sites == [show(Str("<unknown>")), show(Str("<unknown>"))]
  {
    ObjectsOf([Obj(map[]), Obj(map[])]);
    TwoAlike(RefKeys(show), RefSites(show), Obj(map[]), out);
  }

  // ----- grouping keeps the sites -----

  function AllSites(out: seq<Caller>): multiset<string> {
    if out == [] then multiset{} else AllSites(out[..|out| - 1]) + multiset(out[|out| - 1].sites)
  }

  function Gathered(key: Value -> RefKey, site: Sites, refs: seq<Value>, ks: seq<RefKey>): multiset<string> {
    if ks == [] then multiset{}
    else Gathered(key, site, refs, ks[..|ks| - 1]) + multiset(SitesOf(site, Members(key, refs, ks[|ks| - 1])))
  }

  lemma MemberSites(key: Value -> RefKey, site: Sites, refs: seq<Value>, ref: Value, k: RefKey)
    ensures multiset(SitesOf(site, Members(key, refs + [ref], k))) ==
            multiset(SitesOf(site, Members(key, refs, k))) + if key(ref) == k then multiset{site(ref)} else multiset{}
  {
    OneMoreRef(key, refs, ref, k);
    SitesSnoc(site, Members(key, refs, k), ref);
    assert Members(key, refs, k) + [] == Members(key, refs, k);
  }

  function OwnSite(key: Value -> RefKey, site: Sites, ref: Value, among: seq<RefKey>): multiset<string> {
    if key(ref) in among then multiset{site(ref)} else multiset{}
  }

  lemma OwnSiteOnce(key: Value -> RefKey, site: Sites, ref: Value, ks: seq<RefKey>)
    requires ks != [] && Distinct(ks)
    ensures OwnSite(key, site, ref, ks) ==
            OwnSite(key, site, ref, ks[..|ks| - 1]) + if key(ref) == ks[|ks| - 1] then multiset{site(ref)} else multiset{}
  {
    assert key(ref) in ks <==> key(ref) in ks[..|ks| - 1] || key(ref) == ks[|ks| - 1];
  }

  /** Adding a reference adds its site to its own group's and to no other's. */
  lemma {:induction false} GatheredGrows(key: Value -> RefKey, site: Sites, refs: seq<Value>, ref: Value, ks: seq<RefKey>)
    requires Distinct(ks)
    ensures Gathered(key, site, refs + [ref], ks) == Gathered(key, site, refs, ks) + OwnSite(key, site, ref, ks)
  {
    if ks != [] {
      GatheredGrows(key, site, refs, ref, ks[..|ks| - 1]);
      MemberSites(key, site, refs, ref, ks[|ks| - 1]);
      OwnSiteOnce(key, site, ref, ks);
    }
  }

  lemma {:induction false} GatheredIsAll(key: Value -> RefKey, site: Sites, refs: seq<Value>)
    ensures Gathered(key, site, refs, FirstSeen(key, refs)) == multiset(SitesOf(site, refs))
  {
    if refs != [] {
      var front, last := refs[..|refs| - 1], refs[|refs| - 1];
      var before, k := FirstSeen(key, front), key(last);
      assert refs == front + [last];
      GatheredIsAll(key, site, front);
      GatheredGrows(key, site, front, last, before);
      if k !in before {
        assert (before + [k])[..|before|] == before;
        OneMoreRef(key, front, last, k);
        MemberSites(key, site, front, last, k);
      }
    }
  }

  lemma {:induction false} GatheredByCaller(key: Value -> RefKey, site: Sites, refs: seq<Value>, ks: seq<RefKey>, out: seq<Caller>)
    requires |out| == |ks| && forall i :: 0 <= i < |out| ==> IsCaller(key, site, refs, ks[i], out[i])
    ensures AllSites(out) == Gathered(key, site, refs, ks)
  {
    if ks != [] {
      GatheredByCaller(key, site, refs, ks[..|ks| - 1], out[..|out| - 1]);
    }
  }

  /** Grouping moves sites and loses none: over all groups they are the sites of all references, each as often. */
  lemma GroupingKeepsTheSites(key: Value -> RefKey, site: Sites, refs: seq<Value>, out: seq<Caller>)
    requires CallersOf(key, site, refs, out)
    ensures AllSites(out) == multiset(SitesOf(site, refs))
  {
    GatheredByCaller(key, site, refs, FirstSeen(key, refs), out);
    GatheredIsAll(key, site, refs);
  }
}
