/**
 * ModItemLoader (mpm/loaders.py): scrapy's TakeFirst as both the default
 * input and the default output processor, so each field of a ModItem gets
 * the first non-empty fragment contributed to it.
 */
module Loaders {
  import opened Wrappers
  import opened Items

  /** TakeFirst: the first value that is neither None nor "". */
  function TakeFirst(values: seq<string>): Option<string> {
    if values == [] then None
    else if values[0] != "" then Some(values[0])
    else TakeFirst(values[1..])
  }

  /**
   * TakeFirst gives nothing exactly when every value is empty, and otherwise
   * the first non-empty value.
   */
  lemma {:induction false} TakeFirstIsFirstNonEmpty(values: seq<string>)
    ensures var r := TakeFirst(values);
            (r.None? <==> forall i :: 0 <= i < |values| ==> values[i] == "") &&
            (r.Some? ==> exists i :: 0 <= i < |values| && values[i] == r.value && r.value != "" &&
                                     forall j :: 0 <= j < i ==> values[j] == "")
  {
    if values != [] && values[0] == "" {
      var rest := values[1..];
      TakeFirstIsFirstNonEmpty(rest);
      var r := TakeFirst(rest);
      if r.Some? {
        var i :| 0 <= i < |rest| && rest[i] == r.value && r.value != "" && forall j :: 0 <= j < i ==> rest[j] == "";
        assert values[i + 1] == r.value;
        assert forall j :: 0 <= j < i + 1 ==> values[j] == "" by {
          forall j | 0 <= j < i + 1 ensures values[j] == "" {
            if j > 0 { assert values[j] == rest[j - 1]; }
          }
        }
      } else {
        assert forall i :: 0 <= i < |values| ==> values[i] == "" by {
          forall i | 0 <= i < |values| ensures values[i] == "" {
            if i > 0 { assert values[i] == rest[i - 1]; }
          }
        }
      }
    }
  }

  function AsList(o: Option<string>): seq<string> {
    if o.Some? then [o.value] else []
  }

  /** One add_xpath / add_value call: a field name and the fragments it contributes. */
  datatype Add = Add(field: string, fragments: seq<string>)

  /** What the loader keeps for a field: the input processor's output of each call, in order. */
  function Collected(adds: seq<Add>, field: string): seq<string> {
    if adds == [] then []
    else (if adds[0].field == field then AsList(TakeFirst(adds[0].fragments)) else []) + Collected(adds[1..], field)
  }

  /** Every fragment contributed to a field, in call order. */
  function Contributed(adds: seq<Add>, field: string): seq<string> {
    if adds == [] then []
    else (if adds[0].field == field then adds[0].fragments else []) + Contributed(adds[1..], field)
  }

  function FieldNames(adds: seq<Add>): set<string> {
    set a | a in adds :: a.field
  }

  /** load_item(): the fields whose output processor produced a value. */
  function LoadedFields(adds: seq<Add>): map<string, Value> {
    map f | f in FieldNames(adds) && TakeFirst(Collected(adds, f)).Some? :: Text(TakeFirst(Collected(adds, f)).value)
  }

  lemma TakeFirstAppend(x: seq<string>, y: seq<string>)
    ensures TakeFirst(x + y) == if TakeFirst(x).Some? then TakeFirst(x) else TakeFirst(y)
  {
    TakeFirstIsFirstNonEmpty(x);
    TakeFirstIsFirstNonEmpty(y);
    TakeFirstIsFirstNonEmpty(x + y);
    if TakeFirst(x).None? && TakeFirst(y).Some? {
      var i :| 0 <= i < |y| && y[i] == TakeFirst(y).value && y[i] != "" && forall j :: 0 <= j < i ==> y[j] == "";
      assert (x + y)[|x| + i] == y[i];
    }
    if TakeFirst(x).Some? {
      var i :| 0 <= i < |x| && x[i] == TakeFirst(x).value && x[i] != "" && forall j :: 0 <= j < i ==> x[j] == "";
      assert (x + y)[i] == x[i];
    } else if TakeFirst(x + y).Some? {
      assert (x + y)[..|x|] == x;
    }
  }

  lemma {:induction false} CollectedTakesFirst(adds: seq<Add>, field: string)
    ensures TakeFirst(Collected(adds, field)) == TakeFirst(Contributed(adds, field))
  {
    if adds != [] {
      CollectedTakesFirst(adds[1..], field);
      var head := if adds[0].field == field then adds[0].fragments else [];
      var kept := if adds[0].field == field then AsList(TakeFirst(adds[0].fragments)) else [];
      TakeFirstAppend(kept, Collected(adds[1..], field));
      TakeFirstAppend(head, Contributed(adds[1..], field));
      TakeFirstIsFirstNonEmpty(head);
      assert TakeFirst(kept) == TakeFirst(head);
    }
  }

  lemma {:induction false} ContributedNamesField(adds: seq<Add>, field: string)
    requires field !in FieldNames(adds)
    ensures Contributed(adds, field) == []
  {
    if adds != [] {
      assert adds[0] in adds;
      assert FieldNames(adds[1..]) <= FieldNames(adds) by {
        forall a | a in adds[1..] ensures a.field in FieldNames(adds) { assert a in adds; }
      }
      ContributedNamesField(adds[1..], field);
    }
  }

  /**
   * First non-empty value wins: a field is loaded exactly when some call
   * contributed a non-empty fragment to it, and then it holds the first such
   * fragment across all calls, in call order.
   */
  lemma FirstNonEmptyWins(adds: seq<Add>, field: string)
    ensures field in LoadedFields(adds) <==> TakeFirst(Contributed(adds, field)).Some?
    ensures field in LoadedFields(adds) ==> LoadedFields(adds)[field] == Text(TakeFirst(Contributed(adds, field)).value)
  {
    CollectedTakesFirst(adds, field);
    if field !in FieldNames(adds) {
      ContributedNamesField(adds, field);
    }
  }

  lemma {:induction false} ContributedAppend(adds: seq<Add>, more: seq<Add>, field: string)
    ensures Contributed(adds + more, field) == Contributed(adds, field) + Contributed(more, field)
  {
    if adds != [] {
      ContributedAppend(adds[1..], more, field);
      assert (adds + more)[1..] == adds[1..] + more;
      assert (adds + more)[0] == adds[0];
      var head := if adds[0].field == field then adds[0].fragments else [];
      assert Contributed(adds + more, field) == head + (Contributed(adds[1..], field) + Contributed(more, field));
      assert Contributed(adds, field) == head + Contributed(adds[1..], field);
    } else {
      assert adds + more == more;
    }
  }

  /** A call's fragments are a contiguous run of what its field was contributed. */
  lemma {:induction false} ContributedContains(adds: seq<Add>, i: nat)
    requires i < |adds|
    ensures exists pre, post :: Contributed(adds, adds[i].field) == pre + adds[i].fragments + post
  {
    var f := adds[i].field;
    if i == 0 {
      assert Contributed(adds, f) == [] + adds[0].fragments + Contributed(adds[1..], f);
    } else {
      ContributedContains(adds[1..], i - 1);
      var pre, post :| Contributed(adds[1..], f) == pre + adds[i].fragments + post;
      var head := if adds[0].field == f then adds[0].fragments else [];
      assert Contributed(adds, f) == (head + pre) + adds[i].fragments + post;
    }
  }

  /**
   * Repeating a call the loader has already seen (as parse_mod_page does for
   * donation_url) changes no field: merging the same fragments twice is the
   * same as merging them once.
   */
  lemma RepeatedAddChangesNothing(adds: seq<Add>, i: nat)
    requires i < |adds|
    ensures LoadedFields(adds + [adds[i]]) == LoadedFields(adds)
  {
    forall f
      ensures (f in LoadedFields(adds + [adds[i]]) <==> f in LoadedFields(adds)) &&
              (f in LoadedFields(adds) ==> LoadedFields(adds + [adds[i]])[f] == LoadedFields(adds)[f])
    {
      FirstNonEmptyWins(adds, f);
      FirstNonEmptyWins(adds + [adds[i]], f);
      RepeatedAddSameFirst(adds, i, f);
    }
  }

  /** The first non-empty fragment of a field is the same after a call is repeated. */
  lemma RepeatedAddSameFirst(adds: seq<Add>, i: nat, f: string)
    requires i < |adds|
    ensures TakeFirst(Contributed(adds + [adds[i]], f)) == TakeFirst(Contributed(adds, f))
  {
    var a := adds[i];
    var before := Contributed(adds, f);
    ContributedAppend(adds, [a], f);
    var extra := Contributed([a], f);
    assert extra == (if a.field == f then a.fragments else []) + [];
    TakeFirstAppend(before, extra);
    if a.field == f && TakeFirst(before).None? {
      assert extra == a.fragments;
      TakeFirstIsFirstNonEmpty(before);
      ContributedContains(adds, i);
      var pre, post :| before == pre + a.fragments + post;
      forall k | 0 <= k < |a.fragments| ensures a.fragments[k] == "" {
        assert a.fragments[k] == before[|pre| + k];
      }
      TakeFirstIsFirstNonEmpty(a.fragments);
    }
  }

  /**
   * A later call never overwrites a field that already has a value: later
   * contributions are discarded, not merged.
   */
  lemma LaterAddDiscarded(adds: seq<Add>, a: Add)
    requires a.field in LoadedFields(adds)
    ensures a.field in LoadedFields(adds + [a]) && LoadedFields(adds + [a])[a.field] == LoadedFields(adds)[a.field]
  {
    FirstNonEmptyWins(adds, a.field);
    FirstNonEmptyWins(adds + [a], a.field);
    ContributedAppend(adds, [a], a.field);
    TakeFirstAppend(Contributed(adds, a.field), Contributed([a], a.field));
  }

  /** No two calls name the same field. */
  predicate DistinctFields(adds: seq<Add>) {
    forall j, k :: 0 <= j < k < |adds| ==> adds[j].field != adds[k].field
  }

  lemma {:induction false} ContributedByOneCall(adds: seq<Add>, i: nat)
    requires DistinctFields(adds) && i < |adds|
    ensures Contributed(adds, adds[i].field) == adds[i].fragments
  {
    var f := adds[i].field;
    if i == 0 {
      assert f !in FieldNames(adds[1..]) by {
        forall a | a in adds[1..] ensures a.field != f {
          var k :| 0 <= k < |adds[1..]| && adds[1..][k] == a;
          assert adds[k + 1] == a;
        }
      }
      ContributedNamesField(adds[1..], f);
    } else {
      assert adds[0].field != f;
      ContributedByOneCall(adds[1..], i - 1);
    }
  }

  /**
   * When every field is added by one call only, each field is loaded exactly
   * when its call contributed a non-empty fragment, and holds the first one.
   */
  lemma OneCallPerField(adds: seq<Add>, i: nat)
    requires DistinctFields(adds) && i < |adds|
    ensures adds[i].field in LoadedFields(adds) <==> TakeFirst(adds[i].fragments).Some?
    ensures adds[i].field in LoadedFields(adds) ==>
              LoadedFields(adds)[adds[i].field] == Text(TakeFirst(adds[i].fragments).value)
  {
    FirstNonEmptyWins(adds, adds[i].field);
    ContributedByOneCall(adds, i);
  }
}
