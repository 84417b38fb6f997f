/** The choke points every renderer reads a reply through, and the recorder of unreadable fields. */
module Skew {
  import opened Json

  // ----- what a read answers, and whether it found the field unreadable -----

  function ListOf(source: Value, key: string): seq<Value> {
    var raw := Get(source, key);
    if raw.Arr? then raw.items else []
  }

  predicate ListSkew(source: Value, key: string) {
    var raw := Get(source, key);
    !raw.Null? && !raw.Arr?
  }

  function Objects(items: seq<Value>): seq<Value> {
    if items == [] then []
    else (if items[0].Obj? then [items[0]] else []) + Objects(items[1..])
  }

  predicate AllObjects(items: seq<Value>) {
    forall k :: 0 <= k < |items| ==> items[k].Obj?
  }

  function RowsOf(source: Value, key: string): seq<Value> {
    Objects(ListOf(source, key))
  }

  predicate RowsSkew(source: Value, key: string) {
    ListSkew(source, key) || !AllObjects(ListOf(source, key))
  }

  function TextOf(source: Value, key: string): Option<string> {
    var raw := Get(source, key);
    if raw.Str? && raw.text != "" then Some(raw.text) else None
  }

  predicate TextSkew(source: Value, key: string) {
    var raw := Get(source, key);
    !raw.Null? && !raw.Str?
  }

  /** The integer a present value states: itself, an integral float, or a text that spells one. */
  function StatedInt(reader: NumberText, raw: Value): Option<int> {
    match raw
    case Int(n) => Some(n)
    case Float(q) => if q.Floor as real == q then Some(q.Floor) else None
    case Str(s) => reader(s)
    case _ => None
  }

  function CountOf(reader: NumberText, source: Value, key: string): int {
    var stated := StatedInt(reader, Get(source, key));
    if stated.Some? then stated.value else 0
  }

  predicate CountSkew(reader: NumberText, source: Value, key: string) {
    var raw := Get(source, key);
    !raw.Null? && StatedInt(reader, raw).None?
  }

  /** The choke points, by the kind of value they read. */
  datatype Choke = AsList | AsRows | AsDict | AsText | AsFlag | AsCount | AsNonnegative

  predicate Unreadable(reader: NumberText, choke: Choke, source: Value, key: string) {
    match choke
    case AsList => ListSkew(source, key)
    case AsRows => RowsSkew(source, key)
    case AsDict => !Get(source, key).Null? && !Get(source, key).Obj?
    case AsText => TextSkew(source, key)
    case AsFlag => !Get(source, key).Null? && !Get(source, key).Bool? && !Get(source, key).Int?
    case AsCount => CountSkew(reader, source, key)
    case AsNonnegative => CountSkew(reader, source, key) || CountOf(reader, source, key) < 0
  }

  /** What each choke point refuses of a present value: another kind than its own, a list row that is no object, a value
      that states no integer, a negative where only a cardinality makes sense. A flag may come as a number. */
  lemma EachRefusesOtherKinds(reader: NumberText, source: Value, key: string)
    ensures var raw, present := Get(source, key), Get(source, key) != Null;
            && (Unreadable(reader, AsList, source, key) <==> present && !raw.Arr?)
            && (Unreadable(reader, AsRows, source, key) <==> present && !(raw.Arr? && forall row :: row in raw.items ==> row.Obj?))
            && (Unreadable(reader, AsDict, source, key) <==> present && !raw.Obj?)
            && (Unreadable(reader, AsText, source, key) <==> present && !raw.Str?)
            && (Unreadable(reader, AsFlag, source, key) <==> present && !raw.Bool? && !raw.Int?)
            && (Unreadable(reader, AsCount, source, key) <==> present && StatedInt(reader, raw).None?)
            && (Unreadable(reader, AsNonnegative, source, key) <==>
                  present && (StatedInt(reader, raw).None? || StatedInt(reader, raw).value < 0))
  {
  }

  /** One read through a choke point. */
  datatype Look = Look(choke: Choke, source: Value, key: string)

  /** The keys a list of reads is refused, in order. */
  function RefusedKeys(reader: NumberText, looks: seq<Look>): seq<string> {
    if looks == [] then []
    else
      var last := looks[|looks| - 1];
      RefusedKeys(reader, looks[..|looks| - 1])
      + if Unreadable(reader, last.choke, last.source, last.key) then [last.key] else []
  }

  /** The keys of the looks that were refused, one after another. */
  lemma {:induction false} RefusedOneByOne(reader: NumberText, looks: seq<Look>, more: seq<Look>)
    ensures RefusedKeys(reader, looks + more) == RefusedKeys(reader, looks) + RefusedKeys(reader, more)
    ensures |looks| == 1 ==>
              var look := looks[0];
              RefusedKeys(reader, looks) == if Unreadable(reader, look.choke, look.source, look.key) then [look.key] else []
  {
    if |looks| == 1 {
      assert looks[..0] == [];
    }
    if more == [] {
      assert looks + more == looks;
    } else {
      var before := more[..|more| - 1];
      RefusedOneByOne(reader, looks, before);
      assert (looks + more)[..|looks + more| - 1] == looks + before;
    }
  }

  function Whole(n: int): real { n as real }

  /** What reads as a count: an integer, a float that is one, or a text that spells one. A flag, an infinity, a fraction
      and anything with parts is refused, and so is a negative where only a cardinality makes sense. */
  lemma CountsAreIntegers(reader: NumberText, source: Value, key: string, n: int)
    ensures var raw := Get(source, key);
            && (raw == Int(n) || raw == Float(Whole(n)) ==>
                  CountOf(reader, source, key) == n && !CountSkew(reader, source, key))
            && (raw.Str? && reader(raw.text).Some? ==>
                  CountOf(reader, source, key) == reader(raw.text).value && !CountSkew(reader, source, key))
            && (raw.Str? && reader(raw.text).None? ==> CountSkew(reader, source, key))
            && (raw.Bool? || raw.NonFinite? || raw.Arr? || raw.Obj? ==> CountSkew(reader, source, key))
            && (raw.Float? && (forall m: int :: Whole(m) != raw.quantity) ==> CountSkew(reader, source, key))
            && (raw.Null? ==> CountOf(reader, source, key) == 0 && !CountSkew(reader, source, key))
            && (CountSkew(reader, source, key) ==> CountOf(reader, source, key) == 0)
            && (Unreadable(reader, AsNonnegative, source, key) <==>
                  CountSkew(reader, source, key) || CountOf(reader, source, key) <= -1)
  {
    var raw := Get(source, key);
    assert Whole(n).Floor == n;
    if raw.Float? {
      assert Whole(raw.quantity.Floor) == raw.quantity.Floor as real;
    }
  }

  const FAILED_STATUSES := {"unsupported", "verification_failed", "invalid_request", "rollback_failed", "internal_error"}

  predicate FailedStatus(row: Value) {
    TextOf(row, "status").Some? && TextOf(row, "status").value in FAILED_STATUSES
  }

  lemma {:induction false} ObjectsOfRows(items: seq<Value>)
    ensures AllObjects(Objects(items))
    ensures AllObjects(items) <==> |Objects(items)| == |items|
    ensures |Objects(items)| <= |items|
    ensures AllObjects(items) ==> Objects(items) == items
  {
    if items != [] {
      ObjectsOfRows(items[1..]);
      assert items == [items[0]] + items[1..];
      assert AllObjects(items) ==> AllObjects(items[1..]);
      assert items[0].Obj? && AllObjects(items[1..]) ==> AllObjects(items);
    }
  }

  lemma {:induction false} ObjectsSnoc(items: seq<Value>, item: Value)
    ensures Objects(items + [item]) == Objects(items) + if item.Obj? then [item] else []
  {
    if items == [] {
      assert items + [item] == [item];
      assert Objects([item][1..]) == [];
    } else {
      assert (items + [item])[1..] == items[1..] + [item];
      ObjectsSnoc(items[1..], item);
      var first, last := if items[0].Obj? then [items[0]] else [], if item.Obj? then [item] else [];
      assert Objects(items + [item]) == first + Objects(items[1..] + [item]);
      Regroup(first, Objects(items[1..]), last);
    }
  }

  // ----- the recorder -----

  /** What `_record_skew` leaves behind. `None` is "no boundary is open": the note is dropped. */
  function Noted(seen: Option<seq<string>>, field: string): Option<seq<string>> {
    if seen.Some? && field !in seen.value then Some(seen.value + [field]) else seen
  }

  function NotedIf(seen: Option<seq<string>>, field: string, skewed: bool): Option<seq<string>> {
    if skewed then Noted(seen, field) else seen
  }

  function NotedAll(seen: Option<seq<string>>, fields: seq<string>): (after: Option<seq<string>>)
    ensures after.Some? <==> seen.Some?
    decreases |fields|
  {
    if fields == [] then seen else NotedAll(Noted(seen, fields[0]), fields[1..])
  }

  lemma {:induction false} NotedAllSnoc(seen: Option<seq<string>>, fields: seq<string>, field: string)
    ensures NotedAll(seen, fields + [field]) == Noted(NotedAll(seen, fields), field)
    decreases |fields|
  {
    if fields == [] {
      assert fields + [field] == [field];
      assert NotedAll(Noted(seen, field), []) == Noted(seen, field);
    } else {
      assert (fields + [field])[1..] == fields[1..] + [field];
      NotedAllSnoc(Noted(seen, fields[0]), fields[1..], field);
    }
  }

  /** Recording a list of names adds exactly those names. */
  lemma {:induction false} NotedAllNames(seen: seq<string>, fields: seq<string>)
    ensures forall name :: name in NotedAll(Some(seen), fields).value <==> name in seen || name in fields
    decreases |fields|
  {
    if fields != [] {
      NotedAllNames(Noted(Some(seen), fields[0]).value, fields[1..]);
      assert fields == [fields[0]] + fields[1..];
    }
  }

  /** The `ContextVar` of skewed field names, with the choke points that write it. */
  class Recorder {
    var seen: Option<seq<string>>

    constructor ()
      ensures seen == None
    {
      seen := None;
    }

    method Record(field: string)
      modifies this
      ensures seen == Noted(old(seen), field)
    {
      if seen.Some? && field !in seen.value {
        seen := Some(seen.value + [field]);
      }
    }

    method RecordAll(fields: seq<string>)
      modifies this
      ensures seen == NotedAll(old(seen), fields)
    {
      for i := 0 to |fields|
        invariant seen == NotedAll(old(seen), fields[..i])
      {
        NotedAllSnoc(old(seen), fields[..i], fields[i]);
        assert fields[..i + 1] == fields[..i] + [fields[i]];
        Record(fields[i]);
      }
      assert fields[..|fields|] == fields;
    }

    /** Any list of reads leaves exactly the keys it was refused. */
    method ReadEach(reader: NumberText, looks: seq<Look>)
      modifies this
      ensures seen == NotedAll(old(seen), RefusedKeys(reader, looks))
    {
      for i := 0 to |looks|
        invariant seen == NotedAll(old(seen), RefusedKeys(reader, looks[..i]))
      {
        assert looks[..i + 1][..i] == looks[..i];
        if Unreadable(reader, looks[i].choke, looks[i].source, looks[i].key) {
          NotedAllSnoc(old(seen), RefusedKeys(reader, looks[..i]), looks[i].key);
          Record(looks[i].key);
        } else {
          assert RefusedKeys(reader, looks[..i]) + [] == RefusedKeys(reader, looks[..i]);
        }
      }
      assert looks[..|looks|] == looks;
    }

    predicate Skewed(key: string)
      reads this
    {
      seen.Some? && key in seen.value
    }

    /** `_field_list(source, *keys)`: the first alias that holds a nonempty list wins, and every
        alias present in a wrong shape is recorded, in the order asked. */
    method FieldList(source: Value, keys: seq<string>) returns (rows: seq<Value>)
      modifies this
      ensures rows == FirstList(source, keys)
      ensures seen == NotedAll(old(seen), SkewedLists(source, keys))
    {
      rows := [];
      for i := 0 to |keys|
        invariant rows == FirstList(source, keys[..i])
        invariant seen == NotedAll(old(seen), SkewedLists(source, keys[..i]))
      {
        assert keys[..i + 1] == keys[..i] + [keys[i]];
        FirstListSnoc(source, keys[..i], keys[i]);
        NotedAllSnoc(old(seen), SkewedLists(source, keys[..i]), keys[i]);
        var raw := Get(source, keys[i]);
        if raw.Arr? {
          if raw.items != [] && rows == [] {
            rows := raw.items;
          }
        } else if !raw.Null? {
          Record(keys[i]);
        }
      }
      assert keys[..|keys|] == keys;
    }

    method RowList(source: Value, key: string) returns (rows: seq<Value>)
      modifies this
      ensures rows == RowsOf(source, key)
      ensures seen == NotedIf(old(seen), key, RowsSkew(source, key))
    {
      var items := FieldList(source, [key]);
      SingleList(source, key);
      assert seen == NotedIf(old(seen), key, ListSkew(source, key)) by {
        assert [key][1..] == [];
      }
      rows := [];
      var dropped := false;
      for i := 0 to |items|
        invariant rows == Objects(items[..i])
        invariant dropped <==> !AllObjects(items[..i])
        invariant seen == NotedIf(old(seen), key, ListSkew(source, key))
      {
        assert items[..i + 1] == items[..i] + [items[i]];
        ObjectsSnoc(items[..i], items[i]);
        if items[i].Obj? {
          rows := rows + [items[i]];
        } else {
          dropped := true;
          assert !items[..i + 1][i].Obj?;
        }
      }
      assert items[..|items|] == items;
      if dropped {
        Record(key);
      }
    }

    method TextValue(source: Value, key: string) returns (text: Option<string>)
      modifies this
      ensures text == TextOf(source, key)
      ensures seen == NotedIf(old(seen), key, TextSkew(source, key))
    {
      text := None;
      var raw := Get(source, key);
      if raw.Str? {
        text := if raw.text != "" then Some(raw.text) else None;
      } else if !raw.Null? {
        Record(key);
      }
    }

    method CountField(reader: NumberText, source: Value, key: string) returns (count: int)
      modifies this
      ensures count == CountOf(reader, source, key)
      ensures seen == NotedIf(old(seen), key, CountSkew(reader, source, key))
    {
      count := 0;
      var raw := Get(source, key);
      if !raw.Null? {
        var stated := StatedInt(reader, raw);
        if stated.Some? {
          count := stated.value;
        } else {
          Record(key);
        }
      }
    }

    method IsFailedStatus(row: Value) returns (failed: bool)
      modifies this
      ensures failed == FailedStatus(row)
      ensures seen == NotedIf(old(seen), "status", TextSkew(row, "status"))
    {
      var status := TextValue(row, "status");
      failed := status.Some? && status.value in FAILED_STATUSES;
    }
  }

  function FirstList(source: Value, keys: seq<string>): seq<Value> {
    if keys == [] then []
    else if ListOf(source, keys[0]) != [] then ListOf(source, keys[0])
    else FirstList(source, keys[1..])
  }

  function SkewedLists(source: Value, keys: seq<string>): seq<string> {
    if keys == [] then []
    else if ListSkew(source, keys[0]) then [keys[0]] + SkewedLists(source, keys[1..])
    else SkewedLists(source, keys[1..])
  }

  lemma {:induction false} FirstListSnoc(source: Value, keys: seq<string>, key: string)
    ensures FirstList(source, keys + [key]) ==
            if FirstList(source, keys) != [] then FirstList(source, keys) else ListOf(source, key)
    ensures SkewedLists(source, keys + [key]) ==
            if ListSkew(source, key) then SkewedLists(source, keys) + [key] else SkewedLists(source, keys)
  {
    if keys == [] {
      assert keys + [key] == [key];
      assert FirstList(source, [key][1..]) == [];
      assert SkewedLists(source, [key][1..]) == [];
    } else {
      assert (keys + [key])[1..] == keys[1..] + [key];
      FirstListSnoc(source, keys[1..], key);
    }
  }

  lemma SingleList(source: Value, key: string)
    ensures FirstList(source, [key]) == ListOf(source, key)
    ensures SkewedLists(source, [key]) == if ListSkew(source, key) then [key] else []
  {
    FirstListSnoc(source, [], key);
    assert [] + [key] == [key];
  }
}
