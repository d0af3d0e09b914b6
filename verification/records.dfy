/**
  Scraped records as the scrapers build them: Python dictionaries from column name to value,
  first filled with `None` for every expected key (`dict.setdefault`) and then overwritten,
  in order, by each recognised `(label, value)` item of the listing's payload.
 */
module Records {

  import opened Options
  import Sequences

  /** The columns a scraped record can carry (the dictionary keys both scrapers write). */
  datatype Column =
    | Id | Source | Date | City | CityName | MarketType | CreateDate | ModifyDate | Title | Url
    | Price | PricePerM | Area | BuildingYear | ConstructionStatus
    | BuildingMaterial | WindowsType | MediaTypes | SecurityTypes | Lift
    | RoomsNum | Car | Rent | Floor | Outdoor | Heating | Furniture

  /** Every column. */
  const AllColumns: set<Column> := {
    Id, Source, Date, City, CityName, MarketType, CreateDate, ModifyDate, Title, Url,
    Price, PricePerM, Area, BuildingYear, ConstructionStatus,
    BuildingMaterial, WindowsType, MediaTypes, SecurityTypes, Lift,
    RoomsNum, Car, Rent, Floor, Outdoor, Heating, Furniture}

  lemma EveryColumn(c: Column)
    ensures c in AllColumns
  {
  }

  /** A scraped record: column to cell, `None` being Python's `None`. */
  type Raw = map<Column, Option<string>>

  /** The cell of column `k`, a missing column reading as null. */
  function Get(r: Raw, k: Column): Option<string> {
    if k in r then r[k] else None
  }

  /** `d.get(k, None)` on a JSON object whose members are texts. */
  function FieldOf(m: map<string, string>, k: string): (r: Option<string>)
    ensures r.Some? <==> k in m
    ensures r.Some? ==> r.value == m[k]
  {
    if k in m then Some(m[k]) else None
  }

  /** A dictionary holding every column of the group `member`, each set to `None`. */
  function Defaults(member: Column -> bool): (m: Raw)
    ensures forall c :: c in m <==> member(c)
    ensures forall c :: c in m ==> m[c] == None
  {
    var m := map c | c in AllColumns && member(c) :: None;
    assert forall c :: member(c) ==> c in m by {
      forall c | member(c)
        ensures c in m
      {
        EveryColumn(c);
      }
    }
    m
  }

  /**
    Reference reading of a run of `(label, value)` items: the value of the last item labelled
    `name`, if any.
   */
  function LastLabelled(items: seq<(string, string)>, name: string): (r: Option<string>)
    ensures r.Some? <==> exists i :: 0 <= i < |items| && items[i].0 == name
  {
    if |items| == 0 then None
    else if items[|items| - 1].0 == name then Some(items[|items| - 1].1)
    else LastLabelled(items[..|items| - 1], name)
  }

  /** The value found is that of an item labelled `name` with no later item so labelled. */
  lemma {:induction false} LastLabelledIsLast(items: seq<(string, string)>, name: string)
    requires LastLabelled(items, name).Some?
    ensures exists i :: 0 <= i < |items| && items[i] == (name, LastLabelled(items, name).value)
                        && forall j :: i < j < |items| ==> items[j].0 != name
    decreases |items|
  {
    var n := |items| - 1;
    if items[n].0 != name {
      var front := items[..n];
      LastLabelledIsLast(front, name);
      var i :| 0 <= i < |front| && front[i] == (name, LastLabelled(front, name).value)
               && forall j :: i < j < |front| ==> front[j].0 != name;
      assert items[i] == front[i];
      assert forall j :: i < j < n ==> items[j] == front[j];
    } else {
      assert items[n] == (name, LastLabelled(items, name).value);
    }
  }

  /**
    One pass of the update loop's `if` chain over an item: every column of the group whose label
    is the item's label takes its value; unrecognised labels change nothing.
   */
  function Set(m: Raw, member: Column -> bool, labelOf: Column -> string, item: (string, string)): Raw {
    map c | c in m :: if member(c) && labelOf(c) == item.0 then Some(item.1) else m[c]
  }

  /** The update loop of a scraper: each item in order overwrites its column (a left fold). */
  function Assign(m: Raw, member: Column -> bool, labelOf: Column -> string, items: seq<(string, string)>): Raw
    decreases |items|
  {
    if |items| == 0 then m else Assign(Set(m, member, labelOf, items[0]), member, labelOf, items[1..])
  }

  /** Seen from the front: a later item for `name` beats the first one. */
  lemma {:induction false} LastLabelledCons(p: (string, string), rest: seq<(string, string)>, name: string)
    ensures LastLabelled([p] + rest, name)
         == if LastLabelled(rest, name).Some? then LastLabelled(rest, name)
            else if p.0 == name then Some(p.1) else None
    decreases |rest|
  {
    var s := [p] + rest;
    if |rest| > 0 {
      assert s[|s| - 1] == rest[|rest| - 1];
      assert s[..|s| - 1] == [p] + rest[..|rest| - 1];
      LastLabelledCons(p, rest[..|rest| - 1], name);
    } else {
      assert s == [p];
    }
  }

  /** The update loop only overwrites columns the dictionary already holds. */
  lemma {:induction false} AssignKeys(m: Raw, member: Column -> bool, labelOf: Column -> string, items: seq<(string, string)>)
    ensures Assign(m, member, labelOf, items).Keys == m.Keys
    decreases |items|
  {
    if |items| > 0 {
      AssignKeys(Set(m, member, labelOf, items[0]), member, labelOf, items[1..]);
    }
  }

  /**
    Each recognised column ends holding the value of the last item carrying its label, or its
    initial value when there is none.
   */
  lemma {:induction false} AssignIsLast(m: Raw, member: Column -> bool, labelOf: Column -> string, items: seq<(string, string)>, c: Column)
    requires c in m && member(c)
    ensures c in Assign(m, member, labelOf, items)
    ensures Assign(m, member, labelOf, items)[c]
         == if LastLabelled(items, labelOf(c)).Some? then LastLabelled(items, labelOf(c)) else m[c]
    decreases |items|
  {
    AssignKeys(m, member, labelOf, items);
    if |items| > 0 {
      AssignIsLast(Set(m, member, labelOf, items[0]), member, labelOf, items[1..], c);
      assert items == [items[0]] + items[1..];
      LastLabelledCons(items[0], items[1..], labelOf(c));
    }
  }

  /**
    A dictionary defaulted to `None` on the group `member`, then updated by `items`: each
    column holds the value of the last item carrying its label, `None` when no item does.
   */
  function Project(member: Column -> bool, labelOf: Column -> string, items: seq<(string, string)>): (m: Raw)
    ensures forall c :: c in m <==> member(c)
    ensures forall c :: member(c) ==> m[c] == LastLabelled(items, labelOf(c))
  {
    var d := Defaults(member);
    AssignKeys(d, member, labelOf, items);
    var m := Assign(d, member, labelOf, items);
    assert forall c :: member(c) ==> m[c] == LastLabelled(items, labelOf(c)) by {
      forall c | member(c)
        ensures m[c] == LastLabelled(items, labelOf(c))
      {
        AssignIsLast(d, member, labelOf, items, c);
      }
    }
    m
  }

  /**
    Two runs appended (`pd.concat`), a run that raised ending everything: the first
    exception wins.
   */
  function Then(a: Result<seq<Raw>>, b: Result<seq<Raw>>): (r: Result<seq<Raw>>)
    ensures r.Ok? <==> a.Ok? && b.Ok?
    ensures r.Ok? ==> r.value == a.value + b.value
    ensures a.Raised? ==> r == a
  {
    if a.Raised? then a else if b.Raised? then b else Ok(a.value + b.value)
  }

  /** Runs appended one after the other, as the city loop of `scrap_data` grows its frame. */
  function ThenAll(runs: seq<Result<seq<Raw>>>): Result<seq<Raw>>
    decreases |runs|
  {
    if |runs| == 0 then Ok([]) else Then(runs[0], ThenAll(runs[1..]))
  }

  /** The frames of runs that all succeeded. */
  function Values(runs: seq<Result<seq<Raw>>>): (vs: seq<seq<Raw>>)
    requires forall i :: 0 <= i < |runs| ==> runs[i].Ok?
    ensures |vs| == |runs| && forall i :: 0 <= i < |runs| ==> vs[i] == runs[i].value
  {
    seq(|runs|, i requires 0 <= i < |runs| => runs[i].value)
  }

  /** The run at `i` raised and every run before it succeeded. */
  predicate FirstRaised(runs: seq<Result<seq<Raw>>>, i: int) {
    0 <= i < |runs| && runs[i].Raised? && forall j :: 0 <= j < i ==> runs[j].Ok?
  }

  /** When every run succeeds, the result holds their frames concatenated in order. */
  lemma {:induction false} ThenAllOk(runs: seq<Result<seq<Raw>>>)
    requires forall i :: 0 <= i < |runs| ==> runs[i].Ok?
    ensures ThenAll(runs) == Ok(Sequences.Concat(Values(runs)))
    decreases |runs|
  {
    if |runs| > 0 {
      var tail := runs[1..];
      assert forall i :: 0 <= i < |tail| ==> tail[i] == runs[i + 1];
      ThenAllOk(tail);
      assert Values(runs)[1..] == Values(tail);
    }
  }

  /** The first run that raised is the result of all of them: later runs are never reached. */
  lemma {:induction false} ThenAllRaised(runs: seq<Result<seq<Raw>>>, i: int)
    requires FirstRaised(runs, i)
    ensures ThenAll(runs) == runs[i]
    decreases |runs|
  {
    if i > 0 {
      var tail := runs[1..];
      assert forall j :: 0 <= j < i - 1 ==> tail[j] == runs[j + 1];
      ThenAllRaised(tail, i - 1);
    }
  }
}
