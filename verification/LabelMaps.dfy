/** The semicolon-separated label values (internal/common/common.go, `AddToLabelMap`). */
module LabelMaps {
  import opened Text

  const MAX_LABEL_VALUE_LEN := 255

  function Truncate(s: string): (r: string)
    ensures r <= s && |r| == if |s| > 255 then 255 else |s|
  {
    if |s| > MAX_LABEL_VALUE_LEN then s[..MAX_LABEL_VALUE_LEN] else s
  }

  /** `strings.ReplaceAll` of one character by nothing. */
  function Without(s: string, c: char): (r: string)
    ensures c !in r && |r| <= |s|
    ensures c !in s ==> r == s
    ensures forall d :: d != c ==> multiset(r)[d] == multiset(s)[d]
  {
    if s == [] then []
    else
      assert s == [s[0]] + s[1..];
      if s[0] == c then Without(s[1..], c) else [s[0]] + Without(s[1..], c)
  }

  function Segments(stored: string): seq<string> {
    Split(stored, ';')
  }

  /** One segment joins a stored value, unless it is there. */
  function AddOne(stored: string, part: string): string {
    if part in Segments(stored) then stored else stored + ([';'] + Truncate(part))
  }

  function AddParts(stored: string, parts: seq<string>): string {
    if parts == [] then stored else AddOne(AddParts(stored, parts[..|parts| - 1]), parts[|parts| - 1])
  }

  /** The stored value after one call. */
  function Added(stored: Option<string>, value: string): string {
    match stored
    case None => Truncate(Without(Without(value, '\n'), '\r'))
    case Some(s) => AddParts(s, Segments(value))
  }

  function Lookup(m: map<string, string>, key: string): Option<string> {
    if key in m then Some(m[key]) else None
  }

  lemma SegmentsHaveNoSemicolon(s: string)
    ensures forall i :: 0 <= i < |Segments(s)| ==> ';' !in Segments(s)[i]
    decreases |s|
  {
    var k := IndexFrom(s, ';', 0);
    if k == -1 {
      assert s[0..] == s;
    } else {
      SegmentsHaveNoSemicolon(s[k + 1..]);
      assert Segments(s) == [s[..k]] + Segments(s[k + 1..]);
    }
  }

  /** One character of a text being split: it extends the current part or ends it. */
  lemma SplitStep(s: string, done: seq<string>, current: string, i: nat)
    requires i < |s| && ';' !in current && Segments(s) == done + Segments(current + s[i..])
    ensures s[i] != ';' ==> Segments(s) == done + Segments(current + [s[i]] + s[i + 1..])
    ensures s[i] == ';' ==> Segments(s) == done + [current] + Segments("" + s[i + 1..])
  {
    hide Split;
    assert s[i..] == [s[i]] + s[i + 1..];
    if s[i] == ';' {
      SplitFirst(current, s[i + 1..], ';');
      Assoc(done, [current], Segments(s[i + 1..]));
      assert "" + s[i + 1..] == s[i + 1..];
    } else {
      Assoc(current, [s[i]], s[i + 1..]);
    }
  }

  class LabelMap {
    var labels: map<string, string>

    constructor ()
      ensures labels == map[]
    {
      labels := map[];
    }

    /** `AddToLabelMap`. */
    method Add(key: string, value: string)
      modifies this
      ensures labels == old(labels)[key := Added(Lookup(old(labels), key), value)]
      decreases |value|, 1
    {
      if key !in labels {
        var stripped := Without(Without(value, '\n'), '\r');
        if |stripped| > MAX_LABEL_VALUE_LEN {
          labels := labels[key := stripped[..MAX_LABEL_VALUE_LEN]];
        } else {
          labels := labels[key := stripped];
        }
        return;
      }
      if ';' in value {
        AddEach(key, value);
        return;
      }
      SplitFirst(value, "", ';');
      var present := Holds(labels[key], value);
      AddSingle(labels[key], value);
      if !present {
        labels := labels[key := labels[key] + ([';'] + Truncate(value))];
      }
    }

    /** The loop over a value with semicolons: every part is added by a call of its own. */
    method AddEach(key: string, value: string)
      requires key in labels && ';' in value
      modifies this
      ensures labels == old(labels)[key := AddParts(old(labels)[key], Segments(value))]
      decreases |value|, 0
    {
      hide AddParts, Split;
      ghost var before, stored := labels, labels[key];
      var current := "";
      ghost var done: seq<string> := [];
      assert current + value[0..] == value && AddParts(stored, []) == stored by { NoParts(stored); }
      for i := 0 to |value|
        invariant ';' !in current && |current| + |done| <= i
        invariant done == [] ==> current == value[..i]
        invariant Segments(value) == done + Segments(current + value[i..])
        invariant labels == before[key := AddParts(stored, done)]
      {
        hide Segments;
        SplitStep(value, done, current, i);
        if value[i] == ';' {
          AddPart(key, current, before, stored, done);
          done := done + [current];
          current := "";
        } else {
          current := current + [value[i]];
        }
      }
      assert current + value[|value|..] == current;
      SplitFirst(current, "", ';');
      AddPart(key, current, before, stored, done);
    }

    /** One part more. */
    method AddPart(key: string, part: string, ghost before: map<string, string>, ghost stored: string, ghost done: seq<string>)
      requires labels == before[key := AddParts(stored, done)] && ';' !in part
      modifies this
      ensures labels == before[key := AddParts(stored, done + [part])]
      decreases |part|, 2
    {
      hide AddParts, Segments, Truncate, Without;
      AddedPart(stored, done, part);
      Add(key, part);
    }
  }

  lemma NoParts(stored: string)
    ensures AddParts(stored, []) == stored
  {
  }

  lemma OnePart(stored: string, part: string)
    ensures AddParts(stored, [part]) == AddOne(stored, part)
  {
    assert [part][..0] == [];
    assert AddParts(stored, []) == stored;
  }

  /** A part without a semicolon, added after others. */
  lemma AddedPart(stored: string, done: seq<string>, part: string)
    requires ';' !in part
    ensures AddParts(AddParts(stored, done), Segments(part)) == AddParts(stored, done + [part])
  {
    SplitFirst(part, "", ';');
    OnePart(AddParts(stored, done), part);
    assert (done + [part])[..|done|] == done;
  }

  lemma AddSingle(stored: string, value: string)
    requires Segments(value) == [value]
    ensures AddParts(stored, Segments(value)) == AddOne(stored, value)
  {
    OnePart(stored, value);
  }

  /** The scan of a stored value for a part. */
  method Holds(stored: string, part: string) returns (present: bool)
    ensures present <==> part in Segments(stored)
  {
    hide Split;
    var current := "";
    ghost var done: seq<string> := [];
    assert current + stored[0..] == stored;
    for i := 0 to |stored|
      invariant ';' !in current && part !in done
      invariant Segments(stored) == done + Segments(current + stored[i..])
    {
      SplitStep(stored, done, current, i);
      if stored[i] == ';' {
        if current == part {
          return true;
        }
        done := done + [current];
        current := "";
      } else {
        current := current + [stored[i]];
      }
    }
    assert current + stored[|stored|..] == current;
    SplitFirst(current, "", ';');
    present := current == part;
  }

  // ---------- ordered set union ----------

  /** The first occurrences, in order, of the parts that are not in `seen`. */
  function NewParts(seen: set<string>, parts: seq<string>): seq<string>
    decreases |parts|
  {
    if parts == [] then []
    else if parts[0] in seen then NewParts(seen, parts[1..])
    else [parts[0]] + NewParts(seen + {parts[0]}, parts[1..])
  }

  function Elements(parts: seq<string>): set<string> {
    set p | p in parts
  }

  predicate AreParts(parts: seq<string>) {
    forall i :: 0 <= i < |parts| ==> ';' !in parts[i]
  }

  predicate AreShort(parts: seq<string>) {
    forall i :: 0 <= i < |parts| ==> |parts[i]| <= 255
  }

  /** What one part does to the segments. */
  lemma SegmentsOfAddOne(stored: string, part: string)
    requires ';' !in part
    ensures Segments(AddOne(stored, part))
         == if part in Segments(stored) then Segments(stored) else Segments(stored) + [Truncate(part)]
  {
    if part !in Segments(stored) {
      SegmentsHaveNoSemicolon(stored);
      JoinSplit(stored, ';');
      JoinSnoc(Segments(stored), Truncate(part), ';');
      SplitJoin(Segments(stored) + [Truncate(part)], ';');
    }
  }

  lemma {:induction false} NewPartsSnoc(seen: set<string>, parts: seq<string>, part: string)
    ensures NewParts(seen, parts + [part])
         == NewParts(seen, parts) + (if part in seen || part in parts then [] else [part])
    decreases |parts|
  {
    if parts == [] {
      assert parts + [part] == [part];
      assert NewParts(seen, [part][1..]) == [];
    } else {
      assert (parts + [part])[1..] == parts[1..] + [part];
      NewPartsSnoc(if parts[0] in seen then seen else seen + {parts[0]}, parts[1..], part);
    }
  }

  lemma InElements(parts: seq<string>, p: string)
    ensures p in Elements(parts) <==> p in parts
  {
  }

  lemma NothingNew(seen: set<string>)
    ensures NewParts(seen, []) == []
  {
  }

  /** For short parts a call is ordered set union: the old segments, then what is new in the order in
      which it first appears. */
  lemma {:induction false} AddPartsIsUnion(stored: string, parts: seq<string>)
    requires AreParts(parts) && AreShort(parts)
    ensures Segments(AddParts(stored, parts)) == Segments(stored) + NewParts(Elements(Segments(stored)), parts)
    decreases |parts|
  {
    hide Split, NewParts, Elements;
    if parts == [] {
      assert NewParts(Elements(Segments(stored)), []) == [] by { NothingNew(Elements(Segments(stored))); }
    } else {
      var n := |parts| - 1;
      AddPartsIsUnion(stored, parts[..n]);
      var before, added := Segments(stored), NewParts(Elements(Segments(stored)), parts[..n]);
      SegmentsOfAddOne(AddParts(stored, parts[..n]), parts[n]);
      NewPartsSnoc(Elements(before), parts[..n], parts[n]);
      NewPartsHolds(Elements(before), parts[..n]);
      InElements(before, parts[n]);
      assert parts[..n] + [parts[n]] == parts;
      Assoc(before, added, [parts[n]]);
      assert added + [] == added;
    }
  }

  lemma {:induction false} NewPartsHolds(seen: set<string>, parts: seq<string>)
    ensures Elements(NewParts(seen, parts)) == Elements(parts) - seen
    ensures forall p :: p in NewParts(seen, parts) <==> p in parts && p !in seen
    ensures Distinct(NewParts(seen, parts))
    decreases |parts|
  {
    if parts == [] {
    } else {
      NewPartsHolds(if parts[0] in seen then seen else seen + {parts[0]}, parts[1..]);
    }
  }

  /** Distinct segments stay distinct, and the segments are the union. */
  lemma AddPartsKeepsDistinct(stored: string, parts: seq<string>)
    requires AreParts(parts) && AreShort(parts)
    ensures Elements(Segments(AddParts(stored, parts))) == Elements(Segments(stored)) + Elements(parts)
    ensures Distinct(Segments(stored)) ==> Distinct(Segments(AddParts(stored, parts)))
  {
    hide Split, AddParts, NewParts;
    AddPartsIsUnion(stored, parts);
    NewPartsHolds(Elements(Segments(stored)), parts);
    var before, added := Segments(stored), NewParts(Elements(Segments(stored)), parts);
    if Distinct(before) {
      forall i, j | 0 <= i < |before| && 0 <= j < |added| ensures before[i] != added[j] {
        assert before[i] in Elements(before) && added[j] in added;
      }
    }
  }

  // ---------- adding a value twice ----------

  /** Whatever the lengths: the segments grow by parts that are at most 255 long, and the stored value
      stays as it is just when every part was there. */
  lemma {:induction false} AddPartsGrows(stored: string, parts: seq<string>)
    requires AreParts(parts)
    ensures forall s :: s in Segments(stored) ==> s in Segments(AddParts(stored, parts))
    ensures forall s :: s in Segments(AddParts(stored, parts)) ==> s in Segments(stored) || |s| <= 255
    decreases |parts|
  {
    hide Split, AddOne;
    if parts == [] {
    } else {
      var n := |parts| - 1;
      AddPartsGrows(stored, parts[..n]);
      SegmentsOfAddOne(AddParts(stored, parts[..n]), parts[n]);
    }
  }

  /** The text is the first 255 characters of a part, or all of a shorter one. */
  predicate IsCutFrom(s: string, parts: seq<string>) {
    exists i :: 0 <= i < |parts| && s <= parts[i] && |s| == if |parts[i]| > 255 then 255 else |parts[i]|
  }

  /** What a later call stores are parts of the value, cut. */
  lemma {:induction false} AddPartsCuts(stored: string, parts: seq<string>)
    requires AreParts(parts)
    ensures forall s :: s in Segments(AddParts(stored, parts)) ==> s in Segments(stored) || IsCutFrom(s, parts)
    decreases |parts|
  {
    hide Split, AddOne;
    if parts == [] {
    } else {
      var n := |parts| - 1;
      AddPartsCuts(stored, parts[..n]);
      SegmentsOfAddOne(AddParts(stored, parts[..n]), parts[n]);
      forall s | s in Segments(AddParts(stored, parts)) ensures s in Segments(stored) || IsCutFrom(s, parts) {
        if IsCutFrom(s, parts[..n]) {
          var i :| 0 <= i < n && s <= parts[..n][i] && |s| == if |parts[..n][i]| > 255 then 255 else |parts[..n][i]|;
          assert parts[..n][i] == parts[i];
        }
      }
    }
  }

  lemma {:induction false} AddPartsStays(stored: string, parts: seq<string>)
    ensures |AddParts(stored, parts)| >= |stored|
    ensures AddParts(stored, parts) == stored <==> forall i :: 0 <= i < |parts| ==> parts[i] in Segments(stored)
    decreases |parts|
  {
    hide Segments, AddOne;
    if parts == [] {
    } else {
      var n := |parts| - 1;
      AddPartsStays(stored, parts[..n]);
      OneStays(AddParts(stored, parts[..n]), parts[n]);
      assert forall i :: 0 <= i < n ==> parts[..n][i] == parts[i];
    }
  }

  lemma OneStays(stored: string, part: string)
    ensures part in Segments(stored) ==> AddOne(stored, part) == stored
    ensures part !in Segments(stored) ==> |AddOne(stored, part)| > |stored|
  {
    hide Segments;
  }

  lemma {:induction false} ShortPartsArrive(stored: string, parts: seq<string>, i: nat)
    requires AreParts(parts) && i < |parts| && |parts[i]| <= 255
    ensures parts[i] in Segments(AddParts(stored, parts))
    decreases |parts|
  {
    hide Split;
    var n := |parts| - 1;
    SegmentsOfAddOne(AddParts(stored, parts[..n]), parts[n]);
    if i < n {
      ShortPartsArrive(stored, parts[..n], i);
    }
  }

  /** Adding the same value again changes nothing just when every part that is too long was there
      before: a long part is stored cut off, so it is never found. */
  lemma AddTwice(stored: string, value: string)
    ensures AddParts(AddParts(stored, Segments(value)), Segments(value)) == AddParts(stored, Segments(value))
       <==> (forall i :: 0 <= i < |Segments(value)| ==>
               |Segments(value)[i]| <= 255 || Segments(value)[i] in Segments(stored))
  {
    hide Split, AddParts;
    var parts := Segments(value);
    SegmentsHaveNoSemicolon(value);
    AddPartsGrows(stored, parts);
    AddPartsStays(AddParts(stored, parts), parts);
    forall i | 0 <= i < |parts|
      ensures parts[i] in Segments(AddParts(stored, parts))
         <==> |parts[i]| <= 255 || parts[i] in Segments(stored)
    {
      if |parts[i]| <= 255 {
        ShortPartsArrive(stored, parts, i);
      }
    }
  }

  // ---------- whole call sequences ----------

  /** What a key holds after a sequence of calls for it. */
  function After(values: seq<string>): Option<string> {
    if values == [] then None else Some(Added(After(values[..|values| - 1]), values[|values| - 1]))
  }

  method AddAll(key: string, values: seq<string>) returns (lm: LabelMap)
    ensures fresh(lm) && Lookup(lm.labels, key) == After(values)
    ensures forall k :: k in lm.labels ==> k == key
  {
    lm := new LabelMap();
    for n := 0 to |values|
      invariant fresh(lm) && Lookup(lm.labels, key) == After(values[..n])
      invariant forall k :: k in lm.labels ==> k == key
    {
      assert values[..n + 1][..n] == values[..n];
      lm.Add(key, values[n]);
    }
    assert values[..|values|] == values;
  }

  lemma {:induction false} SegmentsAreShort(s: string)
    ensures forall i :: 0 <= i < |Segments(s)| ==> |Segments(s)[i]| <= |s|
    decreases |s|
  {
    var k := IndexFrom(s, ';', 0);
    if k != -1 {
      SegmentsAreShort(s[k + 1..]);
      assert Segments(s) == [s[..k]] + Segments(s[k + 1..]);
    }
  }

  /** No segment that is ever stored is longer than 255, whatever was added. */
  lemma {:induction false} StoredSegmentsAreShort(values: seq<string>)
    requires values != []
    ensures AreShort(Segments(After(values).value))
    decreases |values|
  {
    hide Split, AddParts;
    var n := |values| - 1;
    if n == 0 {
      SegmentsAreShort(After(values).value);
    } else {
      StoredSegmentsAreShort(values[..n]);
      SegmentsHaveNoSemicolon(values[n]);
      AddPartsGrows(After(values[..n]).value, Segments(values[n]));
    }
  }

  /** A reachable value absorbs another call exactly when all its parts are short. */
  lemma ReachableAddTwice(values: seq<string>, value: string)
    requires values != []
    ensures After(values + [value] + [value]) == After(values + [value]) <==> AreShort(Segments(value))
  {
    hide Split, AddParts;
    StoredSegmentsAreShort(values);
    AddTwice(After(values).value, value);
    assert (values + [value])[..|values|] == values;
    assert (values + [value] + [value])[..|values| + 1] == values + [value];
  }

  // ---------- what a call sequence stores ----------

  /** What the first call stores: the value stripped of line ends and cut as a whole. */
  function FirstStored(value: string): set<string> {
    Elements(Segments(Added(None, value)))
  }

  /** What a later call makes sure of: every segment, cut by itself. */
  function LaterStored(value: string): set<string> {
    CutParts(Segments(value))
  }

  function CutParts(parts: seq<string>): set<string> {
    set p | p in parts :: Truncate(p)
  }

  ghost function AllLater(values: multiset<string>): set<string> {
    set v, p | v in values && p in Segments(v) :: Truncate(p)
  }

  lemma {:induction false} AddPartsStores(stored: string, parts: seq<string>)
    requires AreParts(parts) && AreShort(Segments(stored))
    ensures Elements(Segments(AddParts(stored, parts))) == Elements(Segments(stored)) + CutParts(parts)
    decreases |parts|
  {
    hide Split, AddOne, Truncate;
    if parts == [] {
    } else {
      var n := |parts| - 1;
      var before := AddParts(stored, parts[..n]);
      AddPartsStores(stored, parts[..n]);
      AddPartsGrows(stored, parts[..n]);
      assert parts == parts[..n] + [parts[n]];
      assert CutParts(parts) == CutParts(parts[..n]) + {Truncate(parts[n])};
      OneStores(before, parts[n]);
    }
  }

  lemma OneStores(stored: string, part: string)
    requires ';' !in part && AreShort(Segments(stored))
    ensures Elements(Segments(AddOne(stored, part))) == Elements(Segments(stored)) + {Truncate(part)}
  {
    hide Split;
    SegmentsOfAddOne(stored, part);
  }

  lemma AllLaterPlus(values: multiset<string>, value: string)
    ensures AllLater(values + multiset{value}) == AllLater(values) + LaterStored(value)
  {
    hide Split, Truncate;
  }

  /** Any call sequence stores the segments of its first value, stripped and cut, and the cut segments of
      all the others. */
  lemma {:induction false} SequenceStores(values: seq<string>)
    requires values != []
    ensures Stored(values) == FirstStored(values[0]) + AllLater(multiset(values[1..]))
    decreases |values|
  {
    hide Split, AddParts, Truncate, AllLater, LaterStored, After, Stored, FirstStored;
    var n := |values| - 1;
    if n == 0 {
      assert multiset(values[1..]) == multiset{};
      NothingLater();
      OneCallStores(values);
    } else {
      var front := values[..n];
      SequenceStores(front);
      LastCallStores(values);
      assert values[1..] == front[1..] + [values[n]];
      assert multiset(values[1..]) == multiset(front[1..]) + multiset{values[n]};
      AllLaterPlus(multiset(front[1..]), values[n]);
    }
  }

  lemma OneCallStores(values: seq<string>)
    requires |values| == 1
    ensures Stored(values) == FirstStored(values[0])
  {
    hide After, Split;
    assert values == [values[0]];
    StoredFirst(values[0]);
  }

  lemma LastCallStores(values: seq<string>)
    requires |values| > 1
    ensures Stored(values) == Stored(values[..|values| - 1]) + LaterStored(values[|values| - 1])
  {
    hide Split, AddParts, Truncate;
    var n := |values| - 1;
    StoredSegmentsAreShort(values[..n]);
    SegmentsHaveNoSemicolon(values[n]);
    AddPartsStores(After(values[..n]).value, Segments(values[n]));
  }

  lemma NothingLater()
    ensures AllLater(multiset{}) == {}
  {
  }

  /** The segments stored after a call sequence. */
  function Stored(values: seq<string>): set<string>
    requires values != []
  {
    Elements(Segments(After(values).value))
  }

  // ---------- when the order matters ----------

  /** `v` first and `w` later store with `others` what `w` first and `v` later do. */
  ghost predicate Swappable(v: string, w: string, others: multiset<string>) {
    v == w || FirstStored(v) + LaterStored(w) + AllLater(others) == FirstStored(w) + LaterStored(v) + AllLater(others)
  }

  /** Two orders of the same calls store the same segments exactly if their first values are swappable. */
  lemma OrdersAgree(values: seq<string>, others: seq<string>)
    requires values != [] && multiset(values) == multiset(others)
    ensures others != []
    ensures Stored(values) == Stored(others)
       <==> Swappable(values[0], others[0], multiset(values) - multiset{values[0]} - multiset{others[0]})
  {
    hide After, FirstStored, LaterStored, AllLater, Split;
    assert values[0] in multiset(others);
    var v, w, all := values[0], others[0], multiset(values);
    FirstAndRest(values);
    FirstAndRest(others);
    if v == w {
      SequenceStores(values);
      SequenceStores(others);
    } else {
      var rest := all - multiset{v} - multiset{w};
      assert w in all;
      assert all - multiset{v} == rest + multiset{w} && all - multiset{w} == rest + multiset{v};
      StoredAfterFirst(values, w, rest);
      StoredAfterFirst(others, v, rest);
    }
  }

  lemma StoredAfterFirst(values: seq<string>, w: string, rest: multiset<string>)
    requires values != [] && multiset(values[1..]) == rest + multiset{w}
    ensures Stored(values) == FirstStored(values[0]) + LaterStored(w) + AllLater(rest)
  {
    hide Stored, FirstStored, LaterStored, AllLater;
    SequenceStores(values);
    AllLaterPlus(rest, w);
  }

  lemma FirstAndRest(values: seq<string>)
    requires values != []
    ensures multiset(values[1..]) == multiset(values) - multiset{values[0]}
  {
    assert values == [values[0]] + values[1..];
  }

  /** So every order of the same calls stores the same segments exactly if the first value of one order is
      swappable with each of the others. */
  lemma EveryOrderAgrees(values: seq<string>)
    requires values != []
    ensures (forall others: seq<string> {:trigger multiset(others)} ::
               others != [] && multiset(others) == multiset(values) ==> Stored(others) == Stored(values))
       <==> forall i :: 0 <= i < |values| ==>
              Swappable(values[0], values[i], multiset(values) - multiset{values[0]} - multiset{values[i]})
  {
    hide After, Swappable, Stored;
    if forall others: seq<string> {:trigger multiset(others)} ::
         others != [] && multiset(others) == multiset(values) ==> Stored(others) == Stored(values) {
      forall i | 0 <= i < |values|
        ensures Swappable(values[0], values[i], multiset(values) - multiset{values[0]} - multiset{values[i]})
      {
        var others := [values[i]] + (values[..i] + values[i + 1..]);
        Moved(values, i);
        OrdersAgree(values, others);
      }
    } else {
      var others: seq<string> :| others != [] && multiset(others) == multiset(values) && Stored(others) != Stored(values);
      OrdersAgree(values, others);
      assert others[0] in multiset(values);
      var i :| 0 <= i < |values| && values[i] == others[0];
    }
  }

  lemma Moved(values: seq<string>, i: nat)
    requires i < |values|
    ensures multiset([values[i]] + (values[..i] + values[i + 1..])) == multiset(values)
  {
    assert values == values[..i] + ([values[i]] + values[i + 1..]);
  }

  /** A value that is stored alike by a first and by a later call. */
  predicate StoredAlike(value: string) {
    FirstStored(value) == LaterStored(value)
  }

  /** Such are the values without line ends that are at most 255 long. */
  lemma PlainIsStoredAlike(value: string)
    requires |value| <= 255 && '\n' !in value && '\r' !in value
    ensures StoredAlike(value)
  {
    hide Split;
    SegmentsAreShort(value);
    assert Added(None, value) == value;
    assert forall p :: p in Segments(value) ==> Truncate(p) == p;
  }

  /** With values stored alike neither the order of the calls nor their number matters. */
  lemma OrderDoesNotMatter(values: seq<string>, others: seq<string>)
    requires values != [] && forall i :: 0 <= i < |values| ==> StoredAlike(values[i])
    requires Elements(values) == Elements(others)
    ensures others != []
    ensures Stored(values) == Stored(others)
  {
    hide After, StoredAlike, Stored;
    assert values[0] in Elements(others);
    forall i | 0 <= i < |others| ensures StoredAlike(others[i]) {
      assert others[i] in Elements(values);
    }
    AlikeStore(values);
    AlikeStore(others);
    SameLater(values, others);
  }

  lemma AlikeStore(values: seq<string>)
    requires values != [] && StoredAlike(values[0])
    ensures Stored(values) == AllLater(multiset(values))
  {
    hide After, LaterStored, AllLater, Stored, FirstStored;
    SequenceStores(values);
    FirstAndRest(values);
    AllLaterPlus(multiset(values[1..]), values[0]);
    assert values[0] in multiset(values);
    assert multiset(values[1..]) + multiset{values[0]} == multiset(values);
  }

  lemma SameLater(values: seq<string>, others: seq<string>)
    requires Elements(values) == Elements(others)
    ensures AllLater(multiset(values)) == AllLater(multiset(others))
  {
    hide Split, Truncate;
    forall v ensures v in multiset(values) <==> v in multiset(others) {
      assert v in multiset(values) <==> v in Elements(values);
      assert v in multiset(others) <==> v in Elements(others);
    }
  }

  /** Line ends are removed by the first insertion only, so with them the order matters. */
  lemma LineEndsOnlyLeaveTheFirst()
    ensures After(["b\n", "a"]) == Some("b;a")
    ensures After(["a", "b\n"]) == Some("a;b\n")
    ensures Stored(["b\n", "a"]) != Stored(["a", "b\n"])
  {
    hide After, Without, Split;
    StoredBefore("b\n", "a");
    StoredBefore("a", "b\n");
    assert After(["b\n"]) == Some("b") by { StoredFirst("b\n"); StripB(); }
    assert After(["a"]) == Some("a") by { StoredFirst("a"); }
    SplitFirst("a", "", ';');
    SplitFirst("b", "", ';');
    SplitFirst("b\n", "", ';');
    OnePart("b", "a");
    OnePart("a", "b\n");
    assert "a"[0] != "b"[0] && |"b\n"| == 2;
    assert "b" + ([';'] + "a") == "b;a" && "a" + ([';'] + "b\n") == "a;b\n";
    SplitFirst("b", "a", ';');
    SplitFirst("a", "b\n", ';');
    assert Segments("a;b\n") == ["a"] + ["b\n"] && Segments("b;a") == ["b"] + ["a"];
    assert "b\n" in Stored(["a", "b\n"]) && "b\n" !in Stored(["b\n", "a"]);
  }

  /** A first call stores the value without its line ends, cut. */
  lemma FirstCallStores(value: string)
    requires '\n' !in value && '\r' !in value
    ensures After([value]) == Some(if |value| > 255 then value[..255] else value)
  {
    StoredFirst(value);
  }

  lemma LineEndsVanish(a: string, c: char, b: string)
    requires c == '\n' || c == '\r'
    ensures After([a + [c] + b]) == After([a + b])
  {
    StoredFirst(a + [c] + b);
    StoredFirst(a + b);
    WithoutJoins(a + [c], b, '\n');
    WithoutJoins(a, [c], '\n');
    WithoutJoins(a, b, '\n');
    var front, line, back := Without(a, '\n'), Without([c], '\n'), Without(b, '\n');
    assert [c][1..] == "";
    WithoutJoins(front + line, back, '\r');
    WithoutJoins(front, line, '\r');
    WithoutJoins(front, back, '\r');
    assert Without(line, '\r') == "";
    assert Without(front, '\r') + "" == Without(front, '\r');
  }

  lemma {:induction false} WithoutJoins(a: string, b: string, c: char)
    ensures Without(a + b, c) == Without(a, c) + Without(b, c)
  {
    if a == "" {
      assert a + b == b;
    } else {
      assert (a + b)[1..] == a[1..] + b;
      WithoutJoins(a[1..], b, c);
    }
  }

  lemma StripB()
    ensures Without("b\n", '\n') == "b"
  {
    assert "b\n"[1..] == "\n" && "\n"[1..] == "";
  }

  lemma StoredFirst(value: string)
    ensures After([value]) == Some(Added(None, value))
  {
    assert [value][..0] == [];
  }

  lemma StoredBefore(first: string, second: string)
    ensures After([first, second]) == Some(Added(After([first]), second))
  {
    assert [first, second][..1] == [first];
  }
}
