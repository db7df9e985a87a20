/** Snake-case and camel-case keys, and the conversion of whole request and response bodies. */
module CaseConverter {

  predicate IsLower(c: char) {
    'a' <= c <= 'z'
  }

  predicate IsUpper(c: char) {
    'A' <= c <= 'Z'
  }

  predicate IsSeparator(c: char) {
    c == '-' || c == '_'
  }

  function Upper(c: char): char {
    if IsLower(c) then (c as int - 32) as char else c
  }

  function Lower(c: char): char {
    if IsUpper(c) then (c as int + 32) as char else c
  }

  /** A separator with a letter after it. */
  predicate StartsPair(key: string) {
    |key| > 1 && IsSeparator(key[0]) && (IsLower(key[1]) || IsUpper(key[1]))
  }

  /** A separator and the ASCII letter after it, of either case, become the upper-case letter. */
  function ToCamelKey(key: string): string {
    if key == "" then ""
    else if StartsPair(key) then [Upper(key[1])] + ToCamelKey(key[2..])
    else [key[0]] + ToCamelKey(key[1..])
  }

  /** An upper-case ASCII letter becomes an underscore and the lower-case letter. */
  function ToSnakeKey(key: string): string {
    if key == "" then ""
    else if IsUpper(key[0]) then ['_', Lower(key[0])] + ToSnakeKey(key[1..])
    else [key[0]] + ToSnakeKey(key[1..])
  }

  // ---------- When keys survive ----------

  /** No separator directly before a lower-case letter. */
  predicate CamelSafe(key: string) {
    forall i :: 0 <= i < |key| - 1 && IsSeparator(key[i]) ==> !IsLower(key[i + 1])
  }

  /** No upper-case letter, and no hyphen directly before a lower-case one. */
  predicate SnakeSafe(key: string) {
    && (forall i :: 0 <= i < |key| ==> !IsUpper(key[i]))
    && (forall i :: 0 <= i < |key| - 1 && key[i] == '-' ==> !IsLower(key[i + 1]))
  }

  lemma CamelSafeStep(key: string)
    requires key != ""
    ensures CamelSafe(key) <==> CamelSafe(key[1..]) && !(|key| > 1 && IsSeparator(key[0]) && IsLower(key[1]))
  {
    if CamelSafe(key[1..]) && !(|key| > 1 && IsSeparator(key[0]) && IsLower(key[1])) {
      forall i | 0 <= i < |key| - 1 && IsSeparator(key[i])
        ensures !IsLower(key[i + 1])
      {
        if i > 0 {
          assert key[1..][i - 1] == key[i] && key[1..][i] == key[i + 1];
        }
      }
    }
  }

  lemma SnakeSafeStep(key: string)
    requires key != ""
    ensures SnakeSafe(key) <==> SnakeSafe(key[1..]) && !IsUpper(key[0]) && !(|key| > 1 && key[0] == '-' && IsLower(key[1]))
  {
    if SnakeSafe(key[1..]) && !IsUpper(key[0]) && !(|key| > 1 && key[0] == '-' && IsLower(key[1])) {
      forall i | 0 < i < |key|
        ensures !IsUpper(key[i])
        ensures i < |key| - 1 && key[i] == '-' ==> !IsLower(key[i + 1])
      {
        assert key[1..][i - 1] == key[i] && (i < |key| - 1 ==> key[1..][i] == key[i + 1]);
      }
    }
  }

  /** How a snake-cased key starts. */
  lemma SnakeHead(key: string)
    requires key != ""
    ensures ToSnakeKey(key) != ""
    ensures ToSnakeKey(key)[0] == if IsUpper(key[0]) then '_' else key[0]
  {
  }

  /** Camel case undoes snake case exactly on keys without a separator before a lower-case letter. */
  lemma {:induction false} CamelOfSnakeIff(key: string)
    ensures ToCamelKey(ToSnakeKey(key)) == key <==> CamelSafe(key)
  {
    if key != "" {
      var rest := key[1..];
      CamelOfSnakeIff(rest);
      CamelSafeStep(key);
      if rest != "" {
        SnakeHead(rest);
      }
      var snake := ToSnakeKey(key);
      if IsUpper(key[0]) {
        assert snake[2..] == ToSnakeKey(rest);
        assert ToCamelKey(snake) == [key[0]] + ToCamelKey(ToSnakeKey(rest));
      } else {
        assert snake[1..] == ToSnakeKey(rest);
      }
    }
  }

  lemma PairSafe(key: string)
    requires StartsPair(key)
    ensures SnakeSafe(key) <==> key[0] == '_' && IsLower(key[1]) && SnakeSafe(key[2..])
  {
    SnakeSafeStep(key);
    SnakeSafeStep(key[1..]);
    assert key[1..][1..] == key[2..];
  }

  lemma PairThere(key: string)
    requires StartsPair(key)
    ensures ToSnakeKey(ToCamelKey(key)) == ['_', Lower(Upper(key[1]))] + ToSnakeKey(ToCamelKey(key[2..]))
  {
    assert ToCamelKey(key)[1..] == ToCamelKey(key[2..]);
  }

  lemma SamePair(key: string, back: string)
    requires StartsPair(key)
    ensures ['_', Lower(Upper(key[1]))] + back == key <==> key[0] == '_' && IsLower(key[1]) && back == key[2..]
  {
    assert key == [key[0], key[1]] + key[2..];
    var whole := ['_', Lower(Upper(key[1]))] + back;
    assert whole[0] == '_' && whole[1] == Lower(Upper(key[1])) && whole[2..] == back;
  }

  /** Snake case undoes camel case exactly on keys without upper case or a hyphen before a lower-case letter. */
  lemma {:induction false} SnakeOfCamelIff(key: string)
    ensures ToSnakeKey(ToCamelKey(key)) == key <==> SnakeSafe(key)
    decreases |key|
  {
    if StartsPair(key) {
      SnakeOfCamelIff(key[2..]);
      PairSafe(key);
      PairThere(key);
      SamePair(key, ToSnakeKey(ToCamelKey(key[2..])));
    } else if key != "" {
      SnakeSafeStep(key);
      SnakeOfCamelIff(key[1..]);
      assert ToCamelKey(key)[1..] == ToCamelKey(key[1..]);
    }
  }

  /** How a camel-cased key starts. */
  lemma CamelHead(key: string)
    ensures key == "" <==> ToCamelKey(key) == ""
    ensures key != "" && IsLower(ToCamelKey(key)[0]) ==> IsLower(key[0])
  {
  }

  /** A camel-cased key has no separator left before a letter it should have raised. */
  lemma {:induction false} CamelIsSafe(key: string)
    ensures CamelSafe(ToCamelKey(key))
    decreases |key|
  {
    if key != "" {
      CamelSafeStep(ToCamelKey(key));
      if StartsPair(key) {
        CamelIsSafe(key[2..]);
        assert ToCamelKey(key)[1..] == ToCamelKey(key[2..]);
      } else {
        CamelIsSafe(key[1..]);
        CamelHead(key[1..]);
        assert ToCamelKey(key)[1..] == ToCamelKey(key[1..]);
      }
    }
  }

  /** Converting there and back is settled after one round, from either side. */
  lemma RoundsSettle(key: string)
    ensures ToCamelKey(ToSnakeKey(ToCamelKey(key))) == ToCamelKey(key)
  {
    CamelIsSafe(key);
    CamelOfSnakeIff(ToCamelKey(key));
  }

  // ---------- What the two key functions do ----------

  lemma {:induction false} SnakeJoins(a: string, b: string)
    ensures ToSnakeKey(a + b) == ToSnakeKey(a) + ToSnakeKey(b)
  {
    if a == "" {
      assert a + b == b;
    } else {
      assert (a + b)[1..] == a[1..] + b;
      SnakeJoins(a[1..], b);
    }
  }

  lemma {:induction false} SnakeLeaves(key: string)
    requires forall i :: 0 <= i < |key| ==> !('A' <= key[i] <= 'Z')
    ensures ToSnakeKey(key) == key
  {
    if key != "" {
      SnakeLeaves(key[1..]);
    }
  }

  function Small(letter: char): char {
    if 'A' <= letter <= 'Z' then (letter as int - 'A' as int + 'a' as int) as char else letter
  }

  lemma SnakeOne(letter: char, after: string)
    requires 'A' <= letter <= 'Z'
    ensures ToSnakeKey([letter] + after) == ['_', Small(letter)] + ToSnakeKey(after)
  {
    assert ([letter] + after)[1..] == after;
  }

  /** Each capital becomes an underscore and its small letter; what holds no capital stays. */
  lemma SnakeReplaces(before: string, letter: char, after: string)
    requires 'A' <= letter <= 'Z'
    requires forall i :: 0 <= i < |before| ==> !('A' <= before[i] <= 'Z')
    ensures ToSnakeKey(before) == before
    ensures ToSnakeKey(before + ([letter] + after)) == before + (['_', Small(letter)] + ToSnakeKey(after))
  {
    SnakeLeaves(before);
    SnakeJoins(before, [letter] + after);
    SnakeOne(letter, after);
  }

  /** A hyphen or underscore with a letter of either case after it. */
  predicate PairAt(key: string, i: nat) {
    && i + 1 < |key| && (key[i] == '-' || key[i] == '_')
    && ('a' <= key[i + 1] <= 'z' || 'A' <= key[i + 1] <= 'Z')
  }

  function Capital(letter: char): char {
    if 'a' <= letter <= 'z' then (letter as int - 'a' as int + 'A' as int) as char else letter
  }

  lemma {:induction false} CamelLeaves(key: string)
    requires forall i :: 0 <= i < |key| ==> !PairAt(key, i)
    ensures ToCamelKey(key) == key
  {
    if key != "" {
      forall i | 0 <= i < |key| - 1
        ensures !PairAt(key[1..], i)
      {
        assert !PairAt(key, i + 1);
      }
      assert !PairAt(key, 0);
      CamelLeaves(key[1..]);
    }
  }

  lemma CamelPair(key: string)
    requires PairAt(key, 0)
    ensures ToCamelKey(key) == [Capital(key[1])] + ToCamelKey(key[2..])
  {
  }

  lemma CamelStep(key: string)
    requires key != "" && !PairAt(key, 0)
    ensures ToCamelKey(key) == [key[0]] + ToCamelKey(key[1..])
  {
  }

  lemma PairLater(key: string, i: nat)
    requires 0 < i && PairAt(key, i) && forall j :: 0 <= j < i ==> !PairAt(key, j)
    ensures PairAt(key[1..], i - 1) && forall j :: 0 <= j < i - 1 ==> !PairAt(key[1..], j)
  {
    forall j | 0 <= j < i - 1
      ensures !PairAt(key[1..], j)
    {
      assert !PairAt(key, j + 1);
    }
  }

  lemma CamelLater(key: string, i: nat, out: string, tail: string)
    requires 0 < i && i + 1 < |key| && out == key[1..][..i - 1] + [Capital(key[1..][i])] + tail
    ensures [key[0]] + out == key[..i] + [Capital(key[i + 1])] + tail
  {
    assert [key[0]] + key[1..][..i - 1] == key[..i];
  }

  lemma SameRest(key: string, i: nat)
    requires i + 2 <= |key|
    ensures key[1..][i + 1..] == key[i + 2..]
  {
  }

  /** Each pair, from the left, becomes its capital; what holds no pair stays. */
  lemma {:induction false} CamelReplaces(key: string, i: nat)
    requires PairAt(key, i) && forall j :: 0 <= j < i ==> !PairAt(key, j)
    ensures ToCamelKey(key) == key[..i] + [Capital(key[i + 1])] + ToCamelKey(key[i + 2..])
  {
    if i == 0 {
      CamelPair(key);
    } else {
      assert !PairAt(key, 0);
      CamelStep(key);
      PairLater(key, i);
      CamelReplaces(key[1..], i - 1);
      SameRest(key, i);
      CamelLater(key, i, ToCamelKey(key[1..]), ToCamelKey(key[i + 2..]));
    }
  }

  // ---------- Bodies ----------

  /** What is returned as it is (null, primitives, dates), arrays, and records with keys in order. */
  datatype Value = Atom(token: string) | List(items: seq<Value>) | Record(fields: seq<Field>)

  datatype Field = Field(key: string, value: Value)

  /** Assigning to this key sets the prototype and leaves no own key. */
  const PROTO := "__proto__"

  /** The index of a key, or the number of fields. */
  function IndexOf(fields: seq<Field>, key: string): (i: nat)
    ensures i <= |fields|
    ensures i < |fields| ==> fields[i].key == key
    ensures forall j :: 0 <= j < i ==> fields[j].key != key
  {
    if fields == [] then 0 else if fields[0].key == key then 0 else 1 + IndexOf(fields[1..], key)
  }

  /** `result[key] = value`: a key already there keeps its place. */
  function Assign(fields: seq<Field>, key: string, value: Value): seq<Field> {
    var i := IndexOf(fields, key);
    if key == PROTO then fields
    else if i < |fields| then fields[i := Field(key, value)]
    else fields + [Field(key, value)]
  }

  function Convert(v: Value, f: string -> string): Value
    decreases v
  {
    match v
    case Atom(_) => v
    case List(items) => List(seq(|items|, i requires 0 <= i < |items| => Convert(items[i], f)))
    case Record(fields) => Record(ConvertFields(fields, f))
  }

  function ConvertFields(fields: seq<Field>, f: string -> string): seq<Field>
    decreases fields
  {
    if fields == [] then []
    else
      var last := fields[|fields| - 1];
      Assign(ConvertFields(fields[..|fields| - 1], f), f(last.key), Convert(last.value, f))
  }

  /** No record has a key twice. */
  ghost predicate WellFormed(v: Value)
    decreases v
  {
    match v
    case Atom(_) => true
    case List(items) => forall i :: 0 <= i < |items| ==> WellFormed(items[i])
    case Record(fields) =>
      && (forall i, j :: 0 <= i < j < |fields| ==> fields[i].key != fields[j].key)
      && (forall i :: 0 <= i < |fields| ==> WellFormed(fields[i].value))
  }

  /** Every key at every depth. */
  ghost predicate EveryKey(v: Value, p: string -> bool)
    decreases v
  {
    match v
    case Atom(_) => true
    case List(items) => forall i :: 0 <= i < |items| ==> EveryKey(items[i], p)
    case Record(fields) => forall i :: 0 <= i < |fields| ==> p(fields[i].key) && EveryKey(fields[i].value, p)
  }

  /** The key comes back, and neither pass loses it to the prototype. */
  function Survives(f: string -> string, g: string -> string): string -> bool {
    (key: string) => g(f(key)) == key && f(key) != PROTO && key != PROTO
  }

  /** Field by field, without collisions. */
  ghost predicate Pointwise(out: seq<Field>, fields: seq<Field>, f: string -> string) {
    && |out| == |fields|
    && forall i :: 0 <= i < |fields| ==> out[i].key == f(fields[i].key) && out[i].value == Convert(fields[i].value, f)
  }

  lemma {:induction false} NoCollisions(fields: seq<Field>, f: string -> string)
    requires forall i, j :: 0 <= i < j < |fields| ==> f(fields[i].key) != f(fields[j].key)
    requires forall i :: 0 <= i < |fields| ==> f(fields[i].key) != PROTO
    ensures Pointwise(ConvertFields(fields, f), fields, f)
  {
    if fields != [] {
      var n := |fields| - 1;
      var front := ConvertFields(fields[..n], f);
      NoCollisions(fields[..n], f);
      forall i | 0 <= i < |front|
        ensures front[i].key != f(fields[n].key)
      {
        assert front[i].key == f(fields[..n][i].key);
      }
      AssignNew(front, f(fields[n].key), Convert(fields[n].value, f));
    }
  }

  lemma AssignNew(fields: seq<Field>, key: string, value: Value)
    requires key != PROTO && forall i :: 0 <= i < |fields| ==> fields[i].key != key
    ensures Assign(fields, key, value) == fields + [Field(key, value)]
  {
  }

  /** Every key of a converted record is a converted key of the record, and not the prototype's. */
  lemma {:induction false} ConvertedKeys(fields: seq<Field>, f: string -> string, i: nat) returns (j: nat)
    requires i < |ConvertFields(fields, f)|
    ensures j < |fields| && ConvertFields(fields, f)[i].key == f(fields[j].key) != PROTO
  {
    var n := |fields| - 1;
    var front := ConvertFields(fields[..n], f);
    if i < |front| && front[i].key != f(fields[n].key) {
      j := ConvertedKeys(fields[..n], f, i);
    } else if i < |front| {
      var k := ConvertedKeys(fields[..n], f, i);
      j := n;
      assert ConvertFields(fields, f)[i].key == f(fields[n].key);
    } else {
      j := n;
    }
  }

  ghost predicate DistinctKeys(fields: seq<Field>) {
    forall i, j :: 0 <= i < j < |fields| ==> fields[i].key != fields[j].key
  }

  lemma AssignKeepsDistinct(fields: seq<Field>, key: string, value: Value)
    requires DistinctKeys(fields)
    ensures DistinctKeys(Assign(fields, key, value))
  {
  }

  lemma {:induction false} OutKeysDiffer(fields: seq<Field>, f: string -> string)
    ensures DistinctKeys(ConvertFields(fields, f))
  {
    if fields != [] {
      var n := |fields| - 1;
      OutKeysDiffer(fields[..n], f);
      AssignKeepsDistinct(ConvertFields(fields[..n], f), f(fields[n].key), Convert(fields[n].value, f));
    }
  }

  lemma AssignedHere(fields: seq<Field>, key: string, value: Value, i: nat)
    requires i < |Assign(fields, key, value)| && key != PROTO && (i < |fields| ==> fields[i].key == key)
    requires DistinctKeys(fields)
    ensures Assign(fields, key, value)[i] == Field(key, value)
  {
  }

  lemma AssignedElsewhere(fields: seq<Field>, key: string, value: Value, i: nat)
    requires i < |fields| && (key == PROTO || fields[i].key != key)
    ensures Assign(fields, key, value)[i] == fields[i]
  {
  }

  /** Of the fields whose keys convert alike, the last gives the value. */
  lemma {:induction false} LastFieldWins(fields: seq<Field>, f: string -> string, i: nat) returns (j: nat)
    requires i < |ConvertFields(fields, f)|
    ensures j < |fields| && ConvertFields(fields, f)[i] == Field(f(fields[j].key), Convert(fields[j].value, f))
    ensures f(fields[j].key) != PROTO && forall k :: j < k < |fields| ==> f(fields[k].key) != f(fields[j].key)
  {
    var n := |fields| - 1;
    var front, key := ConvertFields(fields[..n], f), f(fields[n].key);
    if i < |front| && (key == PROTO || front[i].key != key) {
      j := LastFieldWins(fields[..n], f, i);
      AssignedElsewhere(front, key, Convert(fields[n].value, f), i);
      assert forall k :: j < k < n ==> fields[..n][k] == fields[k];
    } else {
      j := n;
      OutKeysDiffer(fields[..n], f);
      AssignedHere(front, key, Convert(fields[n].value, f), i);
    }
  }

  // ---------- One pass ----------

  /**
   * `out` is `v` with its keys renamed by `f` and nothing else changed: the same atoms, arrays
   * of the same length and order, records with their fields in place.
   */
  ghost predicate Renames(f: string -> string, v: Value, out: Value)
    decreases v
  {
    match v
    case Atom(token) => out == Atom(token)
    case List(items) =>
      out.List? && |out.items| == |items| && forall i :: 0 <= i < |items| ==> Renames(f, items[i], out.items[i])
    case Record(fields) =>
      && out.Record? && |out.fields| == |fields|
      && forall i :: 0 <= i < |fields| ==> out.fields[i].key == f(fields[i].key) && Renames(f, fields[i].value, out.fields[i].value)
  }

  /** No two keys of a record convert alike, and none becomes the prototype's. */
  ghost predicate Separates(f: string -> string, v: Value)
    decreases v
  {
    match v
    case Atom(_) => true
    case List(items) => forall i :: 0 <= i < |items| ==> Separates(f, items[i])
    case Record(fields) =>
      && (forall i, j :: 0 <= i < j < |fields| ==> f(fields[i].key) != f(fields[j].key))
      && (forall i :: 0 <= i < |fields| ==> f(fields[i].key) != PROTO && Separates(f, fields[i].value))
  }

  /** There is only one such value. */
  lemma {:induction false} RenamesUnique(f: string -> string, v: Value, a: Value, b: Value)
    requires Renames(f, v, a) && Renames(f, v, b)
    ensures a == b
    decreases v
  {
    match v {
      case Atom(_) =>
      case List(items) =>
        forall i | 0 <= i < |items|
          ensures a.items[i] == b.items[i]
        {
          RenamesUnique(f, items[i], a.items[i], b.items[i]);
        }
        assert a.items == b.items;
      case Record(fields) =>
        forall i | 0 <= i < |fields|
          ensures a.fields[i] == b.fields[i]
        {
          RenamesUnique(f, fields[i].value, a.fields[i].value, b.fields[i].value);
        }
        assert a.fields == b.fields;
    }
  }

  lemma AssignGrows(fields: seq<Field>, key: string, value: Value)
    ensures |fields| <= |Assign(fields, key, value)| <= |fields| + 1
    ensures |Assign(fields, key, value)| == |fields| + 1 ==> key != PROTO && forall i :: 0 <= i < |fields| ==> fields[i].key != key
  {
  }

  /** A record keeps its size only if its converted keys are distinct and none is the prototype's. */
  lemma {:induction false} SizeKept(fields: seq<Field>, f: string -> string)
    ensures |ConvertFields(fields, f)| <= |fields|
    ensures |ConvertFields(fields, f)| == |fields| ==>
              && (forall i, j :: 0 <= i < j < |fields| ==> f(fields[i].key) != f(fields[j].key))
              && (forall i :: 0 <= i < |fields| ==> f(fields[i].key) != PROTO)
  {
    if fields != [] {
      var n := |fields| - 1;
      var front := ConvertFields(fields[..n], f);
      SizeKept(fields[..n], f);
      AssignGrows(front, f(fields[n].key), Convert(fields[n].value, f));
      if |ConvertFields(fields, f)| == |fields| {
        KeptKeys(fields[..n], f);
        forall i | 0 <= i < n
          ensures f(fields[i].key) != f(fields[n].key) && f(fields[i].key) != PROTO
        {
          assert front[i].key == f(fields[..n][i].key);
        }
        forall i, j | 0 <= i < j < n
          ensures f(fields[i].key) != f(fields[j].key)
        {
          assert fields[..n][i] == fields[i] && fields[..n][j] == fields[j];
        }
      }
    }
  }

  lemma KeptKeys(fields: seq<Field>, f: string -> string)
    requires forall i, j :: 0 <= i < j < |fields| ==> f(fields[i].key) != f(fields[j].key)
    requires forall i :: 0 <= i < |fields| ==> f(fields[i].key) != PROTO
    ensures Pointwise(ConvertFields(fields, f), fields, f)
  {
    NoCollisions(fields, f);
  }

  /** A conversion renames the keys and changes nothing else, exactly when no record loses a field by it. */
  lemma {:induction false} ConvertRenamesIff(f: string -> string, v: Value)
    ensures Renames(f, v, Convert(v, f)) <==> Separates(f, v)
    decreases v
  {
    match v {
      case Atom(_) =>
      case List(items) =>
        forall i | 0 <= i < |items|
          ensures Renames(f, items[i], Convert(v, f).items[i]) <==> Separates(f, items[i])
        {
          ConvertRenamesIff(f, items[i]);
        }
      case Record(fields) => RecordRenamesIff(f, v);
    }
  }

  lemma {:induction false} RecordRenamesIff(f: string -> string, v: Value)
    requires v.Record?
    ensures Renames(f, v, Convert(v, f)) <==> Separates(f, v)
    decreases v, 0
  {
    var fields := v.fields;
    var out := ConvertFields(fields, f);
    SizeKept(fields, f);
    if (forall i, j :: 0 <= i < j < |fields| ==> f(fields[i].key) != f(fields[j].key))
       && (forall i :: 0 <= i < |fields| ==> f(fields[i].key) != PROTO) {
      NoCollisions(fields, f);
      forall i | 0 <= i < |fields|
        ensures Renames(f, fields[i].value, out[i].value) <==> Separates(f, fields[i].value)
      {
        ConvertRenamesIff(f, fields[i].value);
      }
    }
  }

  /** What a caller gets, in those terms. */
  lemma ConvertedIff(f: string -> string, v: Value, out: Value)
    requires Separates(f, v)
    ensures Convert(v, f) == out <==> Renames(f, v, out)
  {
    ConvertRenamesIff(f, v);
    if Renames(f, v, out) {
      RenamesUnique(f, v, out, Convert(v, f));
    }
  }

  /** Converting twice is settled after one round. */
  ghost predicate Settles(f: string -> string, g: string -> string) {
    forall key: string :: g(f(g(f(key)))) == g(f(key))
  }

  /** The key that a key of a twice converted record comes from. */
  lemma SourceKey(fields: seq<Field>, f: string -> string, g: string -> string, i: nat) returns (source: string)
    requires i < |fields| && ConvertFields(ConvertFields(fields, f), g) == fields
    ensures fields[i].key == g(f(source)) && fields[i].key != PROTO && f(source) != PROTO
    ensures exists j :: 0 <= j < |fields| && fields[j].key == source
  {
    var mid := ConvertFields(fields, f);
    var m := ConvertedKeys(mid, g, i);
    var j := ConvertedKeys(fields, f, m);
    source := fields[j].key;
  }

  /** A record that comes back whole has only surviving keys. */
  lemma KeysOfRoundTrip(fields: seq<Field>, f: string -> string, g: string -> string, i: nat)
    requires Settles(f, g) && i < |fields| && ConvertFields(ConvertFields(fields, f), g) == fields
    ensures Survives(f, g)(fields[i].key)
  {
    var source := SourceKey(fields, f, g, i);
    var j :| 0 <= j < |fields| && fields[j].key == source;
    var before := SourceKey(fields, f, g, j);
    assert g(f(g(f(before)))) == g(f(before));
  }

  /** With surviving keys only, both passes are field by field. */
  lemma BothPointwise(fields: seq<Field>, f: string -> string, g: string -> string)
    requires forall i, j :: 0 <= i < j < |fields| ==> fields[i].key != fields[j].key
    requires forall i :: 0 <= i < |fields| ==> Survives(f, g)(fields[i].key)
    ensures Pointwise(ConvertFields(fields, f), fields, f)
    ensures Pointwise(ConvertFields(ConvertFields(fields, f), g), ConvertFields(fields, f), g)
  {
    forall i, j | 0 <= i < j < |fields|
      ensures f(fields[i].key) != f(fields[j].key)
    {
      assert g(f(fields[i].key)) != g(f(fields[j].key));
    }
    NoCollisions(fields, f);
    BackAgain(fields, ConvertFields(fields, f), f, g);
  }

  lemma BackAgain(fields: seq<Field>, mid: seq<Field>, f: string -> string, g: string -> string)
    requires forall i, j :: 0 <= i < j < |fields| ==> fields[i].key != fields[j].key
    requires forall i :: 0 <= i < |fields| ==> Survives(f, g)(fields[i].key)
    requires Pointwise(mid, fields, f)
    ensures Pointwise(ConvertFields(mid, g), mid, g)
  {
    forall i | 0 <= i < |mid|
      ensures g(mid[i].key) == fields[i].key != PROTO
    {
    }
    NoCollisions(mid, g);
  }

  /** A body survives both passes exactly when every key in it, at every depth, does. */
  lemma {:induction false} RoundTripIff(v: Value, f: string -> string, g: string -> string)
    requires WellFormed(v) && Settles(f, g)
    ensures Convert(Convert(v, f), g) == v <==> EveryKey(v, Survives(f, g))
    decreases v
  {
    match v {
      case Atom(_) =>
      case List(items) =>
        var out := Convert(Convert(v, f), g).items;
        forall i | 0 <= i < |items|
          ensures out[i] == items[i] <==> EveryKey(items[i], Survives(f, g))
        {
          RoundTripIff(items[i], f, g);
        }
        assert |out| == |items|;
        assert out == items <==> forall i :: 0 <= i < |items| ==> out[i] == items[i];
      case Record(fields) => FieldsRoundTripIff(v, f, g);
    }
  }

  lemma {:induction false} FieldsRoundTripIff(v: Value, f: string -> string, g: string -> string)
    requires v.Record? && WellFormed(v) && Settles(f, g)
    ensures Convert(Convert(v, f), g) == v <==> EveryKey(v, Survives(f, g))
    decreases v, 0
  {
    var fields := v.fields;
    var out := ConvertFields(ConvertFields(fields, f), g);
    if forall i :: 0 <= i < |fields| ==> Survives(f, g)(fields[i].key) {
      BothPointwise(fields, f, g);
      forall i | 0 <= i < |fields|
        ensures out[i] == fields[i] <==> EveryKey(fields[i].value, Survives(f, g))
      {
        RoundTripIff(fields[i].value, f, g);
      }
      assert out == fields <==> forall i :: 0 <= i < |fields| ==> out[i] == fields[i];
    } else if out == fields {
      var i: nat :| i < |fields| && !Survives(f, g)(fields[i].key);
      KeysOfRoundTrip(fields, f, g, i);
    }
  }

  // ---------- The two round trips ----------

  /** Keys that a response's snake case and a request's camel case bring back. */
  function CamelRoundTrips(): string -> bool {
    (key: string) => CamelSafe(key) && ToSnakeKey(key) != PROTO
  }

  function SnakeRoundTrips(): string -> bool {
    (key: string) => SnakeSafe(key) && key != PROTO
  }

  lemma {:induction false} EveryKeyAgrees(v: Value, p: string -> bool, q: string -> bool)
    requires forall key: string :: p(key) == q(key)
    ensures EveryKey(v, p) == EveryKey(v, q)
    decreases v
  {
    match v {
      case Atom(_) =>
      case List(items) =>
        forall i | 0 <= i < |items| ensures EveryKey(items[i], p) == EveryKey(items[i], q) {
          EveryKeyAgrees(items[i], p, q);
        }
      case Record(fields) =>
        forall i | 0 <= i < |fields| ensures EveryKey(fields[i].value, p) == EveryKey(fields[i].value, q) {
          EveryKeyAgrees(fields[i].value, p, q);
        }
    }
  }

  lemma ProtoIsNotCamelSafe()
    ensures !CamelSafe(PROTO)
  {
    assert IsSeparator(PROTO[1]) && IsLower(PROTO[2]);
  }

  /** A camel-cased body comes back from snake case exactly when no key in it has a separator before a lower-case letter, or becomes the prototype key. */
  lemma CamelBodyRoundTripIff(v: Value)
    requires WellFormed(v)
    ensures Convert(Convert(v, ToSnakeKey), ToCamelKey) == v <==> EveryKey(v, CamelRoundTrips())
  {
    forall key: string
      ensures ToCamelKey(ToSnakeKey(ToCamelKey(ToSnakeKey(key)))) == ToCamelKey(ToSnakeKey(key))
      ensures Survives(ToSnakeKey, ToCamelKey)(key) == CamelRoundTrips()(key)
    {
      RoundsSettle(ToSnakeKey(key));
      CamelOfSnakeIff(key);
      ProtoIsNotCamelSafe();
    }
    RoundTripIff(v, ToSnakeKey, ToCamelKey);
    EveryKeyAgrees(v, Survives(ToSnakeKey, ToCamelKey), CamelRoundTrips());
  }

  /** A snake-cased body comes back from camel case exactly when no key in it has upper case, or a hyphen before a lower-case letter, or is the prototype key. */
  lemma SnakeBodyRoundTripIff(v: Value)
    requires WellFormed(v)
    ensures Convert(Convert(v, ToCamelKey), ToSnakeKey) == v <==> EveryKey(v, SnakeRoundTrips())
  {
    forall key: string
      ensures ToSnakeKey(ToCamelKey(ToSnakeKey(ToCamelKey(key)))) == ToSnakeKey(ToCamelKey(key))
      ensures Survives(ToCamelKey, ToSnakeKey)(key) == SnakeRoundTrips()(key)
    {
      RoundsSettle(key);
      SnakeOfCamelIff(key);
      CamelIsSafe(key);
      ProtoIsNotCamelSafe();
    }
    RoundTripIff(v, ToCamelKey, ToSnakeKey);
    EveryKeyAgrees(v, Survives(ToCamelKey, ToSnakeKey), SnakeRoundTrips());
  }
}
