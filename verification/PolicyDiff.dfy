/** The audit diff of a channel's policy: which keys changed, and in what shape that is written down. */
module PolicyDiff {
  import opened Basics
  import J = JsonText

  const POLICY_KEYS: seq<string> := [
    "profile", "adminMode", "autoMode", "allowBash", "allowNetwork", "rawNetwork", "egressRawHosts", "cleanMode",
    "noDefaultTokens", "approvedEngines", "engine", "codexAuthSource", "model", "effort", "runtime", "workDir",
    "syncDriveFolder", "access", "manageAccess", "managers", "allowedUsers", "excludedUsers", "sshUsers",
    "allowedMcps", "allowedCodexMcps", "template", "skillTemplate", "skills"]

  const LIST_KEYS: set<string> := {
    "approvedEngines", "managers", "allowedUsers", "excludedUsers", "sshUsers", "allowedMcps", "allowedCodexMcps",
    "egressRawHosts"}

  const MAX_CHANGES_BYTES := 8000

  type Meta = map<string, J.Json>

  // ---- Sorting -----------------------------------------------------------------------------------------------

  /** The dictionary order of texts. */
  predicate Below(a: string, b: string) {
    a == "" || (b != "" && (a[0] < b[0] || (a[0] == b[0] && Below(a[1..], b[1..]))))
  }

  lemma {:induction false} BelowTotal(a: string, b: string)
    ensures Below(a, b) || Below(b, a)
    ensures Below(a, b) && Below(b, a) ==> a == b
  {
    if a != "" && b != "" && a[0] == b[0] {
      BelowTotal(a[1..], b[1..]);
      assert a == [a[0]] + a[1..] && b == [b[0]] + b[1..];
    }
  }

  lemma {:induction false} BelowTransitive(a: string, b: string, c: string)
    requires Below(a, b) && Below(b, c)
    ensures Below(a, c)
  {
    if a != "" && a[0] == b[0] == c[0] {
      BelowTransitive(a[1..], b[1..], c[1..]);
    }
  }

  /** `a` is less than `b` where they first part. */
  ghost predicate PartsBelow(a: string, b: string) {
    exists k :: 0 <= k < |a| && k < |b| && a[..k] == b[..k] && a[k] < b[k]
  }

  lemma PartsLater(a: string, b: string)
    requires a != "" && b != "" && a[0] == b[0]
    ensures PartsBelow(a, b) <==> PartsBelow(a[1..], b[1..])
  {
    var c, d := a[1..], b[1..];
    if PartsBelow(c, d) {
      var k :| 0 <= k < |c| && k < |d| && c[..k] == d[..k] && c[k] < d[k];
      assert a[..k + 1] == [a[0]] + c[..k] && b[..k + 1] == [b[0]] + d[..k];
      assert a[k + 1] < b[k + 1];
    }
    if PartsBelow(a, b) {
      var k :| 0 <= k < |a| && k < |b| && a[..k] == b[..k] && a[k] < b[k];
      assert c[..k - 1] == a[..k][1..] && d[..k - 1] == b[..k][1..];
      assert c[k - 1] < d[k - 1];
    }
  }

  lemma PartsNow(a: string, b: string)
    requires a != "" && b != "" && a[0] != b[0]
    ensures PartsBelow(a, b) <==> a[0] < b[0]
  {
    if a[0] < b[0] {
      assert a[..0] == b[..0];
    }
    if PartsBelow(a, b) {
      var k :| 0 <= k < |a| && k < |b| && a[..k] == b[..k] && a[k] < b[k];
      assert k > 0 ==> a[..k][0] == b[..k][0];
    }
  }

  /** A text comes before another when it begins it, or when it is less where they first part. */
  lemma {:induction false} BelowMeans(a: string, b: string)
    ensures Below(a, b) <==> a <= b || PartsBelow(a, b)
  {
    hide PartsBelow;
    if a != "" && b != "" {
      if a[0] == b[0] {
        PartsLater(a, b);
        BelowMeans(a[1..], b[1..]);
        assert a == [a[0]] + a[1..] && b == [b[0]] + b[1..];
        assert a <= b <==> a[1..] <= b[1..];
      } else {
        PartsNow(a, b);
      }
    } else {
      NothingParts(a, b);
    }
  }

  lemma NothingParts(a: string, b: string)
    requires a == "" || b == ""
    ensures !PartsBelow(a, b)
  {
  }

  function InsertSorted(names: seq<string>, name: string): (r: seq<string>)
    ensures multiset(r) == multiset(names) + multiset{name}
  {
    if names == [] then [name]
    else if Below(name, names[0]) then [name] + names
    else
      assert names == [names[0]] + names[1..];
      [names[0]] + InsertSorted(names[1..], name)
  }

  function Sorted(names: seq<string>): (r: seq<string>)
    ensures multiset(r) == multiset(names)
    ensures |r| == |names|
  {
    if names == [] then []
    else
      assert names == names[..|names| - 1] + [names[|names| - 1]];
      var r := InsertSorted(Sorted(names[..|names| - 1]), names[|names| - 1]);
      assert |multiset(r)| == |multiset(names)|;
      r
  }

  ghost predicate Ascending(names: seq<string>) {
    forall i, j :: 0 <= i < j < |names| ==> Below(names[i], names[j])
  }

  lemma {:induction false} InsertKeepsOrder(names: seq<string>, name: string)
    requires Ascending(names)
    ensures Ascending(InsertSorted(names, name))
  {
    hide Below;
    if names != [] {
      if Below(name, names[0]) {
        forall j | 0 <= j < |names| ensures Below(name, names[j]) {
          if j > 0 {
            BelowTransitive(name, names[0], names[j]);
          }
        }
      } else {
        BelowTotal(name, names[0]);
        InsertKeepsOrder(names[1..], name);
        var rest := InsertSorted(names[1..], name);
        forall j | 0 <= j < |rest| ensures Below(names[0], rest[j]) {
          assert rest[j] in multiset(rest);
          if rest[j] != name {
            assert rest[j] in multiset(names[1..]);
            assert rest[j] in names[1..];
            var k :| 0 <= k < |names[1..]| && names[1..][k] == rest[j];
            assert names[k + 1] == rest[j];
          }
        }
      }
    }
  }

  lemma {:induction false} SortedAscends(names: seq<string>)
    ensures Ascending(Sorted(names))
  {
    if names != [] {
      SortedAscends(names[..|names| - 1]);
      InsertKeepsOrder(Sorted(names[..|names| - 1]), names[|names| - 1]);
    }
  }

  lemma SameHead(a: seq<string>, b: seq<string>)
    requires Ascending(a) && Ascending(b) && multiset(a) == multiset(b) && a != []
    ensures b != [] && a[0] == b[0]
  {
    hide Below;
    assert a[0] in multiset(b);
    assert b[0] in multiset(a);
    HeadLeast(a, b[0]);
    HeadLeast(b, a[0]);
    BelowTotal(a[0], b[0]);
  }

  lemma TailMultiset(a: seq<string>)
    requires a != []
    ensures multiset(a[1..]) == multiset(a) - multiset{a[0]}
  {
    assert a == [a[0]] + a[1..];
  }

  lemma {:induction false} AscendingUnique(a: seq<string>, b: seq<string>)
    requires Ascending(a) && Ascending(b) && multiset(a) == multiset(b)
    ensures a == b
  {
    if a == [] {
      assert |b| == |multiset(b)| == |multiset(a)|;
    } else {
      SameHead(a, b);
      TailMultiset(a);
      TailMultiset(b);
      AscendingTail(a);
      AscendingTail(b);
      hide Ascending;
      AscendingUnique(a[1..], b[1..]);
      assert a == [a[0]] + a[1..] && b == [b[0]] + b[1..];
    }
  }

  lemma AscendingTail(a: seq<string>)
    requires Ascending(a) && a != []
    ensures Ascending(a[1..])
  {
    hide Below;
  }

  lemma HeadLeast(names: seq<string>, name: string)
    requires Ascending(names) && name in names
    ensures names[0] == name || Below(names[0], name)
  {
    var i :| 0 <= i < |names| && names[i] == name;
  }

  /** Sorting decides equality of multisets: reordering a list is no change, and nothing else is hidden. */
  lemma SortedDecides(a: seq<string>, b: seq<string>)
    ensures Sorted(a) == Sorted(b) <==> multiset(a) == multiset(b)
  {
    SortedAscends(a);
    SortedAscends(b);
    if multiset(a) == multiset(b) {
      AscendingUnique(Sorted(a), Sorted(b));
    }
  }

  // ---- Shapes ----------------------------------------------------------------------------------------------------

  /** What the audit records of one value. */
  datatype Shape = Null | Bool(b: bool) | Number(value: J.Json) | Text(s: string) | Names(names: seq<string>) | Count(n: nat)

  /** `String(value)` of a JSON value, left open except on strings. */
  datatype Texts = Texts(text: J.Json -> string)

  function TextOf(texts: Texts, value: Option<J.Json>): string {
    match value
    case None => ""
    case Some(Null) => ""
    case Some(Str(s)) => s
    case Some(other) => texts.text(other)
  }

  function NonNull(value: Option<J.Json>): Option<J.Json> {
    if value == Some(J.Null) then None else value
  }

  /** An object counts under its name, else its id; anything else under its own text. */
  function EntryName(texts: Texts, entry: J.Json): string {
    match entry
    case Obj(fields) =>
      var name := NonNull(J.Lookup(fields, "name"));
      TextOf(texts, if name.Some? then name else J.Lookup(fields, "id"))
    case Arr(_) => ""
    case _ => TextOf(texts, Some(entry))
  }

  /** The non-empty names of a list, in the list's order. */
  function NamesIn(texts: Texts, entries: seq<J.Json>): seq<string> {
    if entries == [] then []
    else
      var name := EntryName(texts, entries[|entries| - 1]);
      NamesIn(texts, entries[..|entries| - 1]) + if name == "" then [] else [name]
  }

  function NamesOf(texts: Texts, value: Option<J.Json>): seq<string> {
    match value
    case Some(Arr(items)) => NamesIn(texts, items)
    case _ => []
  }

  function ListValue(texts: Texts, value: Option<J.Json>): seq<string> {
    Sorted(NamesOf(texts, value))
  }

  function ShapeOf(texts: Texts, key: string, value: Option<J.Json>): Shape {
    if key == "skills" then Count(if value.Some? && value.value.Arr? then |value.value.items| else 0)
    else if key in LIST_KEYS then Names(ListValue(texts, value))
    else
      match value
      case None => Null
      case Some(Null) => Null
      case Some(Bool(b)) => Bool(b)
      case Some(Num(_)) => Number(value.value)
      case Some(Float(_, _)) => Number(value.value)
      case Some(Str(s)) => Text(s)
      case Some(other) => Text(texts.text(other))
  }

  function Get(meta: Meta, key: string): Option<J.Json> {
    if key in meta then Some(meta[key]) else None
  }

  predicate Changed(texts: Texts, before: Meta, after: Meta, key: string) {
    if key == "skills" then ListValue(texts, Get(before, key)) != ListValue(texts, Get(after, key))
    else ShapeOf(texts, key, Get(before, key)) != ShapeOf(texts, key, Get(after, key))
  }

  // ---- What shapes say ---------------------------------------------------------------------------------------------

  /** An entry's name is the text it is, or for an object its `name`, and without one its `id`; nothing else has one
      that is not printed from it. */
  lemma EntryNameMeans(texts: Texts, fields: J.Fields, s: string)
    ensures EntryName(texts, J.Str(s)) == s && EntryName(texts, J.Null) == ""
    ensures J.Lookup(fields, "name") == Some(J.Str(s)) ==> EntryName(texts, J.Obj(fields)) == s
    ensures J.Lookup(fields, "name") in {None, Some(J.Null)} && J.Lookup(fields, "id") == Some(J.Str(s))
      ==> EntryName(texts, J.Obj(fields)) == s
    ensures J.Lookup(fields, "name") in {None, Some(J.Null)} && J.Lookup(fields, "id") in {None, Some(J.Null)}
      ==> EntryName(texts, J.Obj(fields)) == ""
  {
    hide J.Lookup;
  }

  /** The names of a list are those of its entries, in order, without the empty ones. */
  lemma {:induction false} NamesAppend(texts: Texts, front: seq<J.Json>, back: seq<J.Json>)
    ensures NamesIn(texts, front + back) == NamesIn(texts, front) + NamesIn(texts, back)
  {
    if back == [] {
      assert front + back == front;
    } else {
      assert (front + back)[..|front + back| - 1] == front + back[..|back| - 1];
      NamesAppend(texts, front, back[..|back| - 1]);
    }
  }

  lemma NamesOne(texts: Texts, entry: J.Json)
    ensures NamesIn(texts, [entry]) == if EntryName(texts, entry) == "" then [] else [EntryName(texts, entry)]
  {
    hide EntryName;
    assert [entry][..0] == [];
    assert NamesIn(texts, [entry][..0]) == [];
  }

  /** The value that a shape shows. */
  function ReadShape(shape: Shape): Option<J.Json> {
    match shape
    case Null => None
    case Bool(b) => Some(J.Bool(b))
    case Number(value) => Some(value)
    case Text(s) => Some(J.Str(s))
    case Names(names) => Some(J.Arr(seq(|names|, i requires 0 <= i < |names| => J.Str(names[i]))))
    case Count(n) => Some(J.Num(n))
  }

  /** The skills show their number, a list its sorted names, a scalar itself, and nothing shows as nothing. */
  lemma ShapeShows(texts: Texts, key: string, value: Option<J.Json>)
    ensures key == "skills" ==>
      ShapeOf(texts, key, value) == Count(if value.Some? && value.value.Arr? then |value.value.items| else 0)
    ensures key in LIST_KEYS ==>
      var shape := ShapeOf(texts, key, value);
      shape.Names? && Ascending(shape.names) && multiset(shape.names) == multiset(NamesOf(texts, value))
    ensures key != "skills" && key !in LIST_KEYS && (value.Some? ==> !value.value.Arr? && !value.value.Obj?) ==>
      ReadShape(ShapeOf(texts, key, value)) == if value == Some(J.Null) then None else value
  {
    SortedAscends(NamesOf(texts, value));
    SkillsIsNoList();
  }

  lemma SkillsIsNoList()
    ensures "skills" !in LIST_KEYS
  {
  }

  /** A scalar key changed exactly when its value did; absent and null are one value. */
  lemma ScalarChangesExactly(texts: Texts, before: Meta, after: Meta, key: string)
    requires key != "skills" && key !in LIST_KEYS
    requires key in before ==> !before[key].Arr? && !before[key].Obj?
    requires key in after ==> !after[key].Arr? && !after[key].Obj?
    ensures Changed(texts, before, after, key) <==> NonNull(Get(before, key)) != NonNull(Get(after, key))
  {
    hide ShapeOf, LIST_KEYS;
    ScalarShape(texts, key, Get(before, key));
    ScalarShape(texts, key, Get(after, key));
  }

  lemma ScalarShape(texts: Texts, key: string, value: Option<J.Json>)
    requires key != "skills" && key !in LIST_KEYS && (value.Some? ==> !value.value.Arr? && !value.value.Obj?)
    ensures var shape := ShapeOf(texts, key, value); ReadShape(shape) == NonNull(value) && !shape.Names? && !shape.Count?
    ensures ShapeOf(texts, key, value) ==
      match NonNull(value) {
        case None => Null
        case Some(Bool(b)) => Bool(b)
        case Some(Str(s)) => Text(s)
        case Some(other) => Number(other)
      }
  {
  }

  // ---- The diff ----------------------------------------------------------------------------------------------------

  datatype Change = Full(from: Shape, to: Shape) | Counts(fromCount: nat, toCount: nat)

  /** `changes` in insertion order. */
  datatype Entry = Entry(key: string, change: Change)

  function FullChange(texts: Texts, before: Meta, after: Meta, key: string): Change {
    Full(ShapeOf(texts, key, Get(before, key)), ShapeOf(texts, key, Get(after, key)))
  }

  /** The first `n` keys of the allowlist. */
  function Changes(texts: Texts, before: Meta, after: Meta, n: nat): seq<Entry>
    requires n <= |POLICY_KEYS|
  {
    if n == 0 then []
    else
      var key := POLICY_KEYS[n - 1];
      Changes(texts, before, after, n - 1)
        + if Changed(texts, before, after, key) then [Entry(key, FullChange(texts, before, after, key))] else []
  }

  /** Length of the JSON text of one shape, left open. */
  type Lengths = Shape -> nat

  /** `"key":{"from":…,"to":…}` */
  function EntryLength(lengths: Lengths, entry: Entry): nat
    requires entry.change.Full?
  {
    |entry.key| + 3 + 8 + lengths(entry.change.from) + 6 + lengths(entry.change.to) + 1
  }

  ghost predicate AllFull(entries: seq<Entry>) {
    forall i :: 0 <= i < |entries| ==> entries[i].change.Full?
  }

  /** The entries, with a comma before each but the first. */
  function BodyLength(lengths: Lengths, entries: seq<Entry>): nat
    requires forall i :: 0 <= i < |entries| ==> entries[i].change.Full?
  {
    if entries == [] then 0
    else
      BodyLength(lengths, entries[..|entries| - 1]) + (if |entries| == 1 then 0 else 1)
        + EntryLength(lengths, entries[|entries| - 1])
  }

  function Collapsed(change: Change): Change
    requires change.Full?
  {
    if !change.from.Names? && !change.to.Names? then change
    else Counts(if change.from.Names? then |change.from.names| else 0, if change.to.Names? then |change.to.names| else 0)
  }

  function Collapse(entries: seq<Entry>): (r: seq<Entry>)
    requires forall i :: 0 <= i < |entries| ==> entries[i].change.Full?
    ensures |r| == |entries|
    ensures forall i :: 0 <= i < |entries| ==> r[i] == Entry(entries[i].key, Collapsed(entries[i].change))
  {
    seq(|entries|, i requires 0 <= i < |entries| => Entry(entries[i].key, Collapsed(entries[i].change)))
  }

  lemma {:induction false} ChangesAreFull(texts: Texts, before: Meta, after: Meta, n: nat)
    requires n <= |POLICY_KEYS|
    ensures AllFull(Changes(texts, before, after, n))
  {
    hide Changed, FullChange;
    if n > 0 {
      ChangesAreFull(texts, before, after, n - 1);
      var key := POLICY_KEYS[n - 1];
      assert FullChange(texts, before, after, key).Full? by {
        FullIsFull(texts, before, after, key);
      }
    }
  }

  lemma FullIsFull(texts: Texts, before: Meta, after: Meta, key: string)
    ensures FullChange(texts, before, after, key).Full?
  {
  }

  /** Whether the list values give way to their counts. */
  predicate TooLong(lengths: Lengths, entries: seq<Entry>)
    requires forall i :: 0 <= i < |entries| ==> entries[i].change.Full?
  {
    2 + BodyLength(lengths, entries) > MAX_CHANGES_BYTES
  }

  function Diff(texts: Texts, lengths: Lengths, before: Meta, after: Meta): seq<Entry> {
    ChangesAreFull(texts, before, after, |POLICY_KEYS|);
    var changes := Changes(texts, before, after, |POLICY_KEYS|);
    if TooLong(lengths, changes) then Collapse(changes) else changes
  }

  lemma NoChanges(texts: Texts, before: Meta, after: Meta)
    ensures Changes(texts, before, after, 0) == []
  {
  }

  lemma ChangesNext(texts: Texts, before: Meta, after: Meta, n: nat)
    requires n < |POLICY_KEYS|
    ensures var key := POLICY_KEYS[n];
      Changes(texts, before, after, n + 1)
        == Changes(texts, before, after, n)
           + if Changed(texts, before, after, key) then [Entry(key, FullChange(texts, before, after, key))] else []
  {
    hide Changed, FullChange;
  }

  lemma CollapsedIs(change: Change)
    requires change.Full?
    ensures Collapsed(change) ==
      if !change.from.Names? && !change.to.Names? then change
      else Counts(if change.from.Names? then |change.from.names| else 0, if change.to.Names? then |change.to.names| else 0)
  {
  }

  /** The loops of `policyDiff`. */
  method ComputeDiff(texts: Texts, lengths: Lengths, before: Meta, after: Meta) returns (changes: seq<Entry>)
    ensures changes == Diff(texts, lengths, before, after)
  {
    hide ShapeOf, ListValue, TooLong, Changes, Collapsed;
    changes := [];
    NoChanges(texts, before, after);
    for n := 0 to |POLICY_KEYS|
      invariant changes == Changes(texts, before, after, n)
    {
      var key := POLICY_KEYS[n];
      ChangesNext(texts, before, after, n);
      var from, to := ShapeOf(texts, key, Get(before, key)), ShapeOf(texts, key, Get(after, key));
      var changed := if key == "skills" then ListValue(texts, Get(before, key)) != ListValue(texts, Get(after, key)) else from != to;
      if !changed {
        continue;
      }
      changes := changes + [Entry(key, Full(from, to))];
    }
    ChangesAreFull(texts, before, after, |POLICY_KEYS|);
    if TooLong(lengths, changes) {
      ghost var whole := changes;
      for i := 0 to |changes|
        invariant |changes| == |whole|
        invariant forall j :: 0 <= j < |whole| ==> changes[j] == if j < i then Collapse(whole)[j] else whole[j]
      {
        var change := changes[i].change;
        CollapsedIs(change);
        if !change.from.Names? && !change.to.Names? {
          continue;
        }
        changes := changes[i := Entry(changes[i].key,
                                      Counts(if change.from.Names? then |change.from.names| else 0,
                                             if change.to.Names? then |change.to.names| else 0))];
      }
      assert changes == Collapse(whole);
    }
  }

  // ---- Exactness -----------------------------------------------------------------------------------------------------

  /** A list key or the skills changed exactly when the multiset of its non-empty names did. */
  lemma ListChangeIsMultiset(texts: Texts, before: Meta, after: Meta, key: string)
    requires key in LIST_KEYS || key == "skills"
    ensures Changed(texts, before, after, key) <==>
      multiset(NamesOf(texts, Get(before, key))) != multiset(NamesOf(texts, Get(after, key)))
  {
    hide Sorted, NamesOf;
    SortedDecides(NamesOf(texts, Get(before, key)), NamesOf(texts, Get(after, key)));
  }

  function Keys(entries: seq<Entry>): (keys: seq<string>)
    ensures |keys| == |entries| && forall i :: 0 <= i < |entries| ==> keys[i] == entries[i].key
  {
    seq(|entries|, i requires 0 <= i < |entries| => entries[i].key)
  }

  /** The changed keys of the allowlist, in its order. */
  function ChangedKeys(texts: Texts, before: Meta, after: Meta, n: nat): seq<string>
    requires n <= |POLICY_KEYS|
  {
    if n == 0 then []
    else ChangedKeys(texts, before, after, n - 1)
           + if Changed(texts, before, after, POLICY_KEYS[n - 1]) then [POLICY_KEYS[n - 1]] else []
  }

  lemma {:induction false} ChangesKeys(texts: Texts, before: Meta, after: Meta, n: nat)
    requires n <= |POLICY_KEYS|
    ensures Keys(Changes(texts, before, after, n)) == ChangedKeys(texts, before, after, n)
  {
    hide Changed, FullChange;
    if n > 0 {
      ChangesKeys(texts, before, after, n - 1);
    }
  }

  lemma {:induction false} ChangesEntries(texts: Texts, before: Meta, after: Meta, n: nat, entry: Entry)
    requires n <= |POLICY_KEYS| && entry in Changes(texts, before, after, n)
    ensures entry.change == FullChange(texts, before, after, entry.key)
  {
    hide Changed, FullChange;
    if n > 0 && entry in Changes(texts, before, after, n - 1) {
      ChangesEntries(texts, before, after, n - 1, entry);
    }
  }

  lemma {:induction false} ChangedKeysExact(texts: Texts, before: Meta, after: Meta, n: nat, key: string)
    requires n <= |POLICY_KEYS|
    ensures key in ChangedKeys(texts, before, after, n) <==> key in POLICY_KEYS[..n] && Changed(texts, before, after, key)
  {
    hide Changed;
    if n > 0 {
      ChangedKeysExact(texts, before, after, n - 1, key);
      PrefixMember(POLICY_KEYS, n, key);
    }
  }

  lemma PrefixMember(keys: seq<string>, n: nat, key: string)
    requires 0 < n <= |keys|
    ensures key in keys[..n] <==> key in keys[..n - 1] || key == keys[n - 1]
  {
    assert keys[..n] == keys[..n - 1] + [keys[n - 1]];
  }

  /** The keys of the diff are precisely the allowlisted keys that changed, in the order of the allowlist; each
      comes with its shape before and after, or, over the size limit, with lists replaced by their counts. The
      limit never drops a key. */
  lemma DiffIsExact(texts: Texts, lengths: Lengths, before: Meta, after: Meta, entry: Entry)
    ensures Keys(Diff(texts, lengths, before, after)) == ChangedKeys(texts, before, after, |POLICY_KEYS|)
    ensures entry.key in Keys(Diff(texts, lengths, before, after)) <==>
      entry.key in POLICY_KEYS && Changed(texts, before, after, entry.key)
    ensures AllFull(Changes(texts, before, after, |POLICY_KEYS|))
    ensures entry in Diff(texts, lengths, before, after) ==>
      var from, to := ShapeOf(texts, entry.key, Get(before, entry.key)), ShapeOf(texts, entry.key, Get(after, entry.key));
      entry.change ==
        if 2 + BodyLength(lengths, Changes(texts, before, after, |POLICY_KEYS|)) > 8000 && (from.Names? || to.Names?)
        then Counts(if from.Names? then |from.names| else 0, if to.Names? then |to.names| else 0)
        else Full(from, to)
  {
    hide Changed, Changes, ChangedKeys, BodyLength, ShapeOf;
    ChangesAreFull(texts, before, after, |POLICY_KEYS|);
    ChangesKeys(texts, before, after, |POLICY_KEYS|);
    ChangedKeysExact(texts, before, after, |POLICY_KEYS|, entry.key);
    assert POLICY_KEYS[..|POLICY_KEYS|] == POLICY_KEYS;
    var changes := Changes(texts, before, after, |POLICY_KEYS|);
    assert Keys(Collapse(changes)) == Keys(changes);
    if entry in Collapse(changes) {
      var i :| 0 <= i < |changes| && Collapse(changes)[i] == entry;
      assert changes[i] in changes;
      ChangesEntries(texts, before, after, |POLICY_KEYS|, changes[i]);
    }
    if entry in changes {
      ChangesEntries(texts, before, after, |POLICY_KEYS|, entry);
    }
  }

  // ---- Secrets -------------------------------------------------------------------------------------------------------

  /** Whatever a caller passes, no key that holds a secret reaches an audit row. */
  lemma SecretsNeverShown(texts: Texts, lengths: Lengths, before: Meta, after: Meta)
    ensures forall key :: key in {"composioToken", "toolboxToken", "makeToolboxKey", "env"} ==>
      key !in Keys(Diff(texts, lengths, before, after))
  {
    hide Diff, Changed, POLICY_KEYS;
    forall key | key in {"composioToken", "toolboxToken", "makeToolboxKey", "env"}
      ensures key !in Keys(Diff(texts, lengths, before, after))
    {
      NoSecrets(key);
      DiffIsExact(texts, lengths, before, after, Entry(key, Counts(0, 0)));
    }
  }

  lemma NoSecrets(key: string)
    requires key in {"composioToken", "toolboxToken", "makeToolboxKey", "env"}
    ensures key !in POLICY_KEYS
  {
  }

  // ---- The size of the row ---------------------------------------------------------------------------------------------

  /** A shape and a diff as the JSON that is written. */
  function ShapeJson(shape: Shape): J.Json {
    match ReadShape(shape)
    case None => J.Null
    case Some(value) => value
  }

  function DiffFields(entries: seq<Entry>): (r: J.Fields)
    requires forall i :: 0 <= i < |entries| ==> entries[i].change.Full?
    ensures |r| == |entries|
  {
    seq(|entries|, i requires 0 <= i < |entries| =>
      J.Field(entries[i].key, J.Obj([
        J.Field("from", ShapeJson(entries[i].change.from)), J.Field("to", ShapeJson(entries[i].change.to))])))
  }

  lemma FromToLength(from: J.Json, to: J.Json)
    ensures |J.Encode(J.Obj([J.Field("from", from), J.Field("to", to)]))| == 8 + |J.Encode(from)| + 6 + |J.Encode(to)| + 1
  {
    hide J.Encode;
    J.EscapePlain("from");
    J.EscapePlain("to");
    var first := [J.Field("from", from)];
    J.AppendField(first, "to", to);
    assert first + [J.Field("to", to)] == [J.Field("from", from), J.Field("to", to)];
    ObjectLength([J.Field("from", from), J.Field("to", to)]);
    assert J.EncodeFields(first) == J.Quote("from") + ":" + J.Encode(from);
  }

  lemma ObjectLength(fields: J.Fields)
    ensures |J.Encode(J.Obj(fields))| == |J.EncodeFields(fields)| + 2
  {
  }

  /** The characters of a key that JSON writes as they are. */
  predicate IsWord(key: string) {
    forall i :: 0 <= i < |key| ==> 'a' <= key[i] <= 'z' || 'A' <= key[i] <= 'Z'
  }

  /** The length that the limit looks at is that of the JSON text, for lengths of shapes that are. */
  lemma {:induction false} BodyIsJson(lengths: Lengths, entries: seq<Entry>)
    requires AllFull(entries) && forall i :: 0 <= i < |entries| ==> IsWord(entries[i].key)
    requires forall shape :: lengths(shape) == |J.Encode(ShapeJson(shape))|
    ensures 2 + BodyLength(lengths, entries) == |J.Encode(J.Obj(DiffFields(entries)))|
  {
    hide J.Encode, J.EncodeFields, ShapeJson, IsWord;
    ObjectLength(DiffFields(entries));
    if entries == [] {
      NoFields();
    } else {
      var front, last := entries[..|entries| - 1], entries[|entries| - 1];
      var value := J.Obj([J.Field("from", ShapeJson(last.change.from)), J.Field("to", ShapeJson(last.change.to))]);
      BodyIsJson(lengths, front);
      ObjectLength(DiffFields(front));
      assert DiffFields(entries) == DiffFields(front) + [J.Field(last.key, value)];
      J.AppendField(DiffFields(front), last.key, value);
      FromToLength(ShapeJson(last.change.from), ShapeJson(last.change.to));
      WordLength(last.key);
    }
  }

  lemma NoFields()
    ensures J.EncodeFields([]) == ""
  {
  }

  lemma WordLength(key: string)
    requires IsWord(key)
    ensures |J.Quote(key)| == |key| + 2
  {
    J.EscapePlain(key);
  }

  // ---- Swapping the records --------------------------------------------------------------------------------------------

  function SwapChange(change: Change): Change {
    match change
    case Full(from, to) => Full(to, from)
    case Counts(from, to) => Counts(to, from)
  }

  function Swap(entries: seq<Entry>): (r: seq<Entry>)
    ensures |r| == |entries|
    ensures forall i :: 0 <= i < |entries| ==> r[i] == Entry(entries[i].key, SwapChange(entries[i].change))
  {
    seq(|entries|, i requires 0 <= i < |entries| => Entry(entries[i].key, SwapChange(entries[i].change)))
  }

  lemma ChangedSwaps(texts: Texts, before: Meta, after: Meta, key: string)
    ensures Changed(texts, after, before, key) <==> Changed(texts, before, after, key)
    ensures FullChange(texts, after, before, key) == SwapChange(FullChange(texts, before, after, key))
  {
    hide ShapeOf, ListValue;
  }

  lemma {:induction false} ChangesSwap(texts: Texts, before: Meta, after: Meta, n: nat)
    requires n <= |POLICY_KEYS|
    ensures Changes(texts, after, before, n) == Swap(Changes(texts, before, after, n))
  {
    hide Changed, FullChange, SwapChange;
    if n > 0 {
      ChangesSwap(texts, before, after, n - 1);
      ChangedSwaps(texts, before, after, POLICY_KEYS[n - 1]);
    }
  }

  lemma {:induction false} LengthSwaps(lengths: Lengths, entries: seq<Entry>)
    requires AllFull(entries)
    ensures AllFull(Swap(entries)) && BodyLength(lengths, Swap(entries)) == BodyLength(lengths, entries)
  {
    if entries != [] {
      var front := entries[..|entries| - 1];
      LengthSwaps(lengths, front);
      assert Swap(entries)[..|entries| - 1] == Swap(front);
    }
  }

  /** Swapping the two records swaps the two sides of every change and nothing else. */
  lemma DiffSwaps(texts: Texts, lengths: Lengths, before: Meta, after: Meta)
    ensures Diff(texts, lengths, after, before) == Swap(Diff(texts, lengths, before, after))
  {
    hide Changes, BodyLength;
    var changes := Changes(texts, before, after, |POLICY_KEYS|);
    ChangesAreFull(texts, before, after, |POLICY_KEYS|);
    ChangesSwap(texts, before, after, |POLICY_KEYS|);
    LengthSwaps(lengths, changes);
    assert Collapse(Swap(changes)) == Swap(Collapse(changes));
  }
}
