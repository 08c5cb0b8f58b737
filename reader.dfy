/** `read` and `read_helper` of src/json_reader.rs: a cursor over the words of
    the input that reads key / separator / value triples after each `{` or
    `,`, classifies every value, and stores it in a map. The functions below
    say what one call computes; the methods are the imperative loops, proved
    to compute exactly that. */
module Reader {
  import opened JsonValues
  import opened Lexemes
  import opened Splitter

  /** What `read` returns: the map (absent when nothing was stored) and the
      cursor position at which the loop ended. */
  datatype Outcome = Outcome(obj: Option<JsonMap>, index: nat)

  /** What a value word contributes to the map: a value to store under the
      key and how far the cursor jumps past the value, or nothing. */
  datatype Entry = Store(v: JsonValue, jump: nat) | Skip

  /** A value word with its trailing `,` and `}` split off, and the words
      that go into the vector right after it. */
  datatype Detached = Detached(value: string, inserted: seq<string>)

  function Finish(acc: JsonMap, index: nat): (o: Outcome)
    ensures o.index == index
    ensures o.obj.None? <==> acc == map[]
    ensures o.obj.Some? ==> o.obj.value == acc
  {
    Outcome(if acc == map[] then None else Some(acc), index)
  }

  predicate EndsWith(w: string, c: char)
  {
    |w| > 0 && w[|w| - 1] == c
  }

  /** `ws` with `ins` inserted at position `i`. */
  function Insert(ws: seq<string>, i: nat, ins: seq<string>): (r: seq<string>)
    requires i <= |ws|
    ensures |r| == |ws| + |ins|
  {
    ws[..i] + ins + ws[i..]
  }

  /** A trailing `,` is split off first and then a trailing `}`. Each is
      inserted right after the value, so `"},"` puts `}` before `,`. Value and
      inserted words together spell the original word. */
  function DetachTrailing(w: string): (d: Detached)
    ensures d.inserted == [] ==> w == d.value
    ensures d.inserted == [","] ==> w == d.value + ","
    ensures d.inserted == ["}"] ==> w == d.value + "}"
    ensures d.inserted == ["}", ","] ==> w == d.value + "},"
    ensures d.inserted == [] || d.inserted == [","] || d.inserted == ["}"] || d.inserted == ["}", ","]
    ensures d.inserted == [] <==> !EndsWith(w, ',') && !EndsWith(w, '}')
    ensures d.inserted == ["}", ","] <==> EndsWith(w, ',') && EndsWith(w[..|w| - 1], '}')
  {
    if EndsWith(w, ',') then
      if EndsWith(w[..|w| - 1], '}') then Detached(w[..|w| - 2], ["}", ","])
      else Detached(w[..|w| - 1], [","])
    else if EndsWith(w, '}') then Detached(w[..|w| - 1], ["}"])
    else Detached(w, [])
  }

  /** Every word is non-empty and no longer than the text being read; this
      bounds the nested reads. */
  predicate Bounded(words: seq<string>, bound: nat)
  {
    forall k :: 0 <= k < |words| ==> 1 <= |words[k]| <= bound
  }

  lemma {:induction false} InsertBounded(words: seq<string>, i: nat, ins: seq<string>, bound: nat)
    requires i <= |words| && 0 < |words|
    requires Bounded(words, bound)
    requires forall k :: 0 <= k < |ins| ==> |ins[k]| == 1
    ensures Bounded(Insert(words, i, ins), bound)
  {
    assert 1 <= |words[0]| <= bound;
    var r := Insert(words, i, ins);
    forall k | 0 <= k < |r|
      ensures 1 <= |r[k]| <= bound
    {
      if k < i {
        assert r[k] == words[k];
      } else if k < i + |ins| {
        assert r[k] == ins[k - i];
      } else {
        assert r[k] == words[k - |ins|];
      }
    }
  }

  /** The value of an int, float or bool lexeme. Only an integer outside
      the `i32` range fails: `parse::<i32>().unwrap()` panics on it. */
  function Scalar(k: LexemeKind, s: string): (r: Result<JsonValue>)
    requires k == IntLexeme || k == FloatLexeme || k == BoolLexeme
    requires Accepts(k, s)
    ensures r.Panic? <==> k == IntLexeme && !(I32_MIN <= IntValue(s) <= I32_MAX)
    ensures r.Ok? ==> QuoteFree(r.value)
  {
    match k
    case IntLexeme =>
      var n := IntValue(s);
      if I32_MIN <= n <= I32_MAX then Ok(JsonInt(n)) else Panic(I32Overflow(s))
    case FloatLexeme =>
      FloatHasNoQuote(s);
      Ok(JsonFloat(s))
    case BoolLexeme => Ok(JsonBoolean(s == "true"))
  }

  /** `read` on all of `json`. */
  function ReadSpec(json: string): (r: Result<Outcome>)
    ensures r.Ok? && r.value.obj.Some? ==> r.value.obj.value != map[] && QuoteFreeMap(r.value.obj.value)
    decreases |json|, 3, 0, 0
  {
    var words := Words(json);
    assert Bounded(words, |json|);
    ReadFrom(words, |words|, 0, map[], |json|)
  }

  /** What every run of the loop promises: the cursor never moves back, a
      `None` map means nothing was stored, and a returned map is non-empty,
      keeps every key stored before, and stays free of double quotes. */
  predicate Grows(r: Result<Outcome>, index: nat, acc: JsonMap)
  {
    r.Ok? ==>
      && r.value.index >= index
      && (r.value.obj.None? ==> acc == map[])
      && (r.value.obj.Some? ==> r.value.obj.value != map[] && acc.Keys <= r.value.obj.value.Keys)
      && (r.value.obj.Some? && QuoteFreeMap(acc) ==> QuoteFreeMap(r.value.obj.value))
  }

  /** The loop of `read` from cursor `index` on, with `acc` stored so far.
      `size` is the length the vector had before any insertion. The loop
      stops at the end, on `{}`, and on any word other than `{` and `,`. */
  function ReadFrom(words: seq<string>, size: nat, index: nat, acc: JsonMap, bound: nat): (r: Result<Outcome>)
    requires size <= |words| && Bounded(words, bound)
    ensures Grows(r, index, acc)
    decreases bound, 2, size - index, 2
  {
    if index >= size then Ok(Finish(acc, index))
    else if words[index] == "{}" then Ok(Finish(acc, index))
    else if words[index] != "{" && words[index] != "," then Ok(Finish(acc, index))
    else Pair(words, size, index, acc, bound)
  }

  /** One trip round the loop on the `{` or `,` at `index`: the key two words
      on, the value three words on with its trailing `,` and `}` inserted
      after it; reading past the end of the vector panics. */
  function Pair(words: seq<string>, size: nat, index: nat, acc: JsonMap, bound: nat): (r: Result<Outcome>)
    requires size <= |words| && Bounded(words, bound) && index < size
    ensures Grows(r, index, acc)
    decreases bound, 2, size - index, 1
  {
    if index + 1 >= |words| then Panic(IndexOutOfBounds(index + 1, |words|))
    else if index + 3 >= |words| then Panic(IndexOutOfBounds(index + 3, |words|))
    else
      var d := DetachTrailing(words[index + 3]);
      InsertBounded(words, index + 4, d.inserted, bound);
      Continue(ValueOf(d.value), Insert(words, index + 4, d.inserted), size, index,
               RemoveQuotes(words[index + 1]), acc, bound)
  }

  /** The rest of the loop once the value of the triple at `index` is
      classified: store it under `key` (jumping on by the nested cursor) or
      skip it, then move past the value. */
  function Continue(entry: Result<Entry>, words: seq<string>, size: nat, index: nat, key: string,
                    acc: JsonMap, bound: nat): (r: Result<Outcome>)
    requires size <= |words| && Bounded(words, bound) && index < size
    requires entry.Ok? && entry.value.Store? ==> QuoteFree(entry.value.v)
    requires '"' !in key
    ensures Grows(r, index, acc)
    decreases bound, 2, size - index, 0
  {
    match entry
    case Panic(c) => Panic(c)
    case Ok(Skip) => ReadFrom(words, size, index + 4, acc, bound)
    case Ok(Store(v, jump)) => ReadFrom(words, size, index + 4 + jump, acc[key := v], bound)
  }

  /** What a value word contributes, by its classification. */
  function ValueOf(value: string): (r: Result<Entry>)
    ensures r.Ok? && r.value.Store? ==> QuoteFree(r.value.v)
    decreases |value|, 2, 0, 0
  {
    match Classify(value)
    case ObjectLexeme => ObjectEntry(value)
    case ArrayLexeme => ArrayEntry(value)
    case StringLexeme => Ok(Store(JsonString(RemoveQuotes(value)), 0))
    case _ =>
      match Scalar(Classify(value), value)
      case Panic(c) => Panic(c)
      case Ok(v) => Ok(Store(v, 0))
  }

  /** A value word `{...}`: the object read from between its braces. */
  function ObjectEntry(value: string): (r: Result<Entry>)
    requires IsJsonObject(value)
    ensures r.Ok? && r.value.Store? ==> QuoteFree(r.value.v)
    decreases |value|, 1, 0, 0
  {
    match ReadSpec(value[1..|value| - 1])
    case Panic(c) => Panic(c)
    case Ok(Outcome(None, _)) => Ok(Skip)
    case Ok(Outcome(Some(m), i)) => Ok(Store(JsonObject(m), i))
  }

  /** A value word `[...]`: the array read from between `[ ` and ` ]`. */
  function ArrayEntry(value: string): (r: Result<Entry>)
    requires IsJsonArr(value)
    ensures r.Ok? && r.value.Store? ==> QuoteFree(r.value.v)
    decreases |value|, 1, 0, 0
  {
    var items := Items(value[2..|value| - 2]);
    match Elements(items, |value| - 1)
    case Panic(c) => Panic(c)
    case Ok(es) => Ok(Store(JsonArray(es), 0))
  }

  /** What an item pushes onto the array: its value, if it has one. */
  function Pushed(o: Option<JsonValue>): (es: seq<JsonValue>)
    ensures |es| <= 1
  {
    if o.Some? then [o.value] else []
  }

  /** `r` with `prefix` in front of its elements, unless it panicked. */
  function Then(prefix: seq<JsonValue>, r: Result<seq<JsonValue>>): Result<seq<JsonValue>>
  {
    match r
    case Panic(c) => Panic(c)
    case Ok(rest) => Ok(prefix + rest)
  }

  /** The array built from `items`, in order: the first item that panics
      ends the whole read. */
  function Elements(items: seq<string>, bound: nat): (r: Result<seq<JsonValue>>)
    requires forall k :: 0 <= k < |items| ==> |items[k]| <= bound
    ensures r.Ok? ==> |r.value| <= |items|
    ensures r.Ok? ==> forall k :: 0 <= k < |r.value| ==> QuoteFree(r.value[k])
    decreases bound, 2, |items|, 0
  {
    if items == [] then Ok([])
    else
      match ItemOf(items[0])
      case Panic(c) => Panic(c)
      case Ok(o) => Then(Pushed(o), Elements(items[1..], bound))
  }

  /** What one array item contributes: a nested array adds nothing, and so
      does a nested object that reads as `None`. */
  function ItemOf(item: string): (r: Result<Option<JsonValue>>)
    ensures r.Ok? && r.value.Some? ==> QuoteFree(r.value.value)
    decreases |item|, 1, 0, 0
  {
    match Classify(item)
    case ObjectLexeme =>
      (match ReadSpec(item[1..|item| - 1])
       case Panic(c) => Panic(c)
       case Ok(Outcome(None, _)) => Ok(None)
       case Ok(Outcome(Some(m), _)) => Ok(Some(JsonObject(m))))
    case ArrayLexeme => Ok(None)
    case StringLexeme => Ok(Some(JsonString(RemoveQuotes(item))))
    case _ =>
      match Scalar(Classify(item), item)
      case Panic(c) => Panic(c)
      case Ok(v) => Ok(Some(v))
  }

  // ---------------------------------------------------------------------
  // The imperative reader.

  lemma {:induction false} InsertTwice(ws: seq<string>, i: nat)
    requires i <= |ws|
    ensures Insert(Insert(ws, i, [","]), i, ["}"]) == Insert(ws, i, ["}", ","])
  {
    var once := Insert(ws, i, [","]);
    assert once[..i] == ws[..i] && once[i..] == [","] + ws[i..];
  }

  /** The pair at `start`: the vector after the insertions, and the rest of
      the loop. */
  lemma {:induction false} PairStep(before: seq<string>, size: nat, start: nat, acc: JsonMap, bound: nat,
                 words: seq<string>, value: string)
    requires size <= |before| && Bounded(before, bound)
    requires start < size && start + 3 < |before|
    requires before[start] == "{" || before[start] == ","
    requires value == DetachTrailing(before[start + 3]).value
    requires words == Insert(before, start + 4, DetachTrailing(before[start + 3]).inserted)
    ensures size <= |words| && Bounded(words, bound) && |value| <= bound
    ensures ReadFrom(before, size, start, acc, bound) ==
            Continue(ValueOf(value), words, size, start, RemoveQuotes(before[start + 1]), acc, bound)
  {
    InsertBounded(before, start + 4, DetachTrailing(before[start + 3]).inserted, bound);
  }

  /** A `{` or `,` too close to the end of the words: `read` indexes past
      the end, at the key first and then at the value. */
  lemma {:induction false} PairPanics(words: seq<string>, size: nat, index: nat, acc: JsonMap, bound: nat)
    requires size <= |words| && Bounded(words, bound) && index < size
    requires words[index] == "{" || words[index] == ","
    requires index + 3 >= |words|
    ensures index + 1 >= |words| ==> ReadFrom(words, size, index, acc, bound) == Panic(IndexOutOfBounds(index + 1, |words|))
    ensures index + 1 < |words| ==> ReadFrom(words, size, index, acc, bound) == Panic(IndexOutOfBounds(index + 3, |words|))
  {
  }

  /** Once the value is classified, the rest of the loop goes on from the
      cursor and the map that the method reaches. */
  lemma {:induction false} LoopStep(entry: Result<Entry>, words: seq<string>, size: nat, index: nat, key: string,
                 acc: JsonMap, bound: nat, next: nat, acc': JsonMap)
    requires size <= |words| && Bounded(words, bound) && index < size
    requires entry.Ok? && entry.value.Store? ==> QuoteFree(entry.value.v)
    requires '"' !in key
    requires entry.Ok?
    requires entry.value.Skip? ==> next == index + 4 && acc' == acc
    requires entry.value.Store? ==> next == index + 4 + entry.value.jump && acc' == acc[key := entry.value.v]
    ensures Continue(entry, words, size, index, key, acc, bound) == ReadFrom(words, size, next, acc', bound)
  {
    if entry.value.Skip? {
      assert Continue(entry, words, size, index, key, acc, bound) == ReadFrom(words, size, index + 4, acc, bound);
    } else {
      var v, jump := entry.value.v, entry.value.jump;
      assert Continue(entry, words, size, index, key, acc, bound) == ReadFrom(words, size, index + 4 + jump, acc[key := v], bound);
    }
  }

  /** The value word at `index` with a trailing `,` and then a trailing `}`
      split off, each inserted into the vector right after the value. */
  method SplitOffTrailing(words: seq<string>, index: nat) returns (value: string, words': seq<string>)
    requires index < |words|
    ensures value == DetachTrailing(words[index]).value
    ensures words' == Insert(words, index + 1, DetachTrailing(words[index]).inserted)
  {
    value := words[index];
    words' := words;
    if EndsWith(value, ',') {
      value := value[..|value| - 1];
      words' := Insert(words', index + 1, [","]);
    }
    if EndsWith(value, '}') {
      value := value[..|value| - 1];
      words' := Insert(words', index + 1, ["}"]);
    }
    if DetachTrailing(words[index]).inserted == ["}", ","] {
      InsertTwice(words, index + 1);
    } else {
      assert words[..index + 1] + [] + words[index + 1..] == words;
    }
  }

  /** `read`: split the text into words, then run the loop over them. */
  method Read(json: string) returns (r: Result<Outcome>)
    ensures r == ReadSpec(json)
    decreases |json|, 5
  {
    var words := SplitPreservingQuotes(json);
    Starts(json);
    r := ReadWords(words, |json|);
  }

  /** The loop of `read`. Its bound `size` is the number of words before any
      trailing character was inserted, and stays so. */
  method ReadWords(split: seq<string>, ghost bound: nat) returns (r: Result<Outcome>)
    requires Bounded(split, bound)
    ensures r == ReadFrom(split, |split|, 0, map[], bound)
    decreases bound, 4
  {
    var words := split;
    var size := |words|;
    var index := 0;
    var result: JsonMap := map[];
    while index < size
      invariant size <= |words| && Bounded(words, bound)
      invariant ReadFrom(words, size, index, result, bound) == ReadFrom(split, size, 0, map[], bound)
      decreases size - index
    {
      var word := words[index];
      if word == "{}" {
        break;
      } else if word == "{" || word == "," {
        var failure;
        failure, words, index, result := ReadPair(words, size, index, result, bound);
        if failure.Some? {
          return Panic(failure.value);
        }
      } else {
        break;
      }
      index := index + 1;
    }
    Stops(words, size, index, result, bound);
    r := Ok(Finish(result, index));
  }

  /** `read` starts the loop at the first word with nothing stored. */
  lemma {:induction false} Starts(json: string)
    ensures Bounded(Words(json), |json|)
    ensures ReadSpec(json) == ReadFrom(Words(json), |Words(json)|, 0, map[], |json|)
  {
  }

  /** The loop of `read` ends, with nothing more stored, at the end of the
      words, on a `{}`, or on any word other than `{` and `,`. */
  lemma {:induction false} Stops(words: seq<string>, size: nat, index: nat, acc: JsonMap, bound: nat)
    requires size <= |words| && Bounded(words, bound)
    requires index < size ==> words[index] == "{}" || (words[index] != "{" && words[index] != ",")
    ensures ReadFrom(words, size, index, acc, bound) == Ok(Finish(acc, index))
  {
  }

  /** One trip round the loop of `read` on a `{` or `,` at `index`: the key,
      the separator and the value after it. On success the cursor `last`
      rests on the last word the triple used, `words'` holds the inserted
      trailing characters and `acc'` the stored value. */
  method ReadPair(words: seq<string>, size: nat, index: nat, acc: JsonMap, ghost bound: nat)
    returns (failure: Option<PanicCause>, words': seq<string>, last: nat, acc': JsonMap)
    requires size <= |words| && Bounded(words, bound) && index < size
    requires words[index] == "{" || words[index] == ","
    ensures failure.Some? ==> ReadFrom(words, size, index, acc, bound) == Panic(failure.value)
    ensures failure.None? ==> size <= |words'| && Bounded(words', bound) && index < last + 1
    ensures failure.None? ==> ReadFrom(words, size, index, acc, bound) == ReadFrom(words', size, last + 1, acc', bound)
    decreases bound, 3
  {
    if index + 1 >= |words| {
      PairPanics(words, size, index, acc, bound);
      return Some(IndexOutOfBounds(index + 1, |words|)), words, index, acc;
    }
    var key := words[index + 1];
    if index + 3 >= |words| {
      PairPanics(words, size, index, acc, bound);
      return Some(IndexOutOfBounds(index + 3, |words|)), words, index, acc;
    }
    var entry;
    entry, words' := ReadEntry(words, size, index, acc, bound);
    failure, last, acc' := StoreValue(entry, words', size, index, RemoveQuotes(key), acc, bound);
  }

  /** The value word of the pair at `index`, with its trailing `,` or `}`
      split off into words of their own, classified. */
  method ReadEntry(words: seq<string>, size: nat, index: nat, acc: JsonMap, ghost bound: nat)
    returns (entry: Result<Entry>, words': seq<string>)
    requires size <= |words| && Bounded(words, bound) && index < size && index + 3 < |words|
    requires words[index] == "{" || words[index] == ","
    ensures size <= |words'| && Bounded(words', bound)
    ensures entry.Ok? && entry.value.Store? ==> QuoteFree(entry.value.v)
    ensures ReadFrom(words, size, index, acc, bound) ==
            Continue(entry, words', size, index, RemoveQuotes(words[index + 1]), acc, bound)
    decreases bound, 2
  {
    var value;
    value, words' := SplitOffTrailing(words, index + 3);
    PairStep(words, size, index, acc, bound, words', value);
    entry := ReadValue(value);
  }

  /** The classified value of the pair at `index` stored under `key`, or the
      panic it caused; `last` is the cursor after the jump past a nested
      object. */
  method StoreValue(entry: Result<Entry>, words: seq<string>, size: nat, index: nat, key: string,
                    acc: JsonMap, ghost bound: nat)
    returns (failure: Option<PanicCause>, last: nat, acc': JsonMap)
    requires size <= |words| && Bounded(words, bound) && index < size
    requires entry.Ok? && entry.value.Store? ==> QuoteFree(entry.value.v)
    requires '"' !in key
    ensures failure.Some? ==> Continue(entry, words, size, index, key, acc, bound) == Panic(failure.value)
    ensures failure.None? ==> index < last + 1
    ensures failure.None? ==> Continue(entry, words, size, index, key, acc, bound) == ReadFrom(words, size, last + 1, acc', bound)
  {
    if entry.Panic? {
      return Some(entry.cause), index + 3, acc;
    }
    failure, last, acc' := None, index + 3, acc;
    if entry.value.Store? {
      acc' := acc[key := entry.value.v];
      last := last + entry.value.jump;
    }
    LoopStep(entry, words, size, index, key, acc, bound, last + 1, acc');
  }

  /** The classification chain `read` runs on one value word. */
  method ReadValue(value: string) returns (r: Result<Entry>)
    ensures r == ValueOf(value)
    decreases |value|, 1
  {
    if IsInt(value) {
      assert Classify(value) == IntLexeme;
      var n := IntValue(value);
      if I32_MIN <= n <= I32_MAX {
        r := Ok(Store(JsonInt(n), 0));
      } else {
        r := Panic(I32Overflow(value));
      }
    } else if IsFloat(value) {
      assert Classify(value) == FloatLexeme;
      r := Ok(Store(JsonFloat(value), 0));
    } else if IsBool(value) {
      assert Classify(value) == BoolLexeme;
      r := Ok(Store(JsonBoolean(value == "true"), 0));
    } else if IsJsonObject(value) {
      assert Classify(value) == ObjectLexeme;
      var nested := Read(value[1..|value| - 1]);
      match nested
      case Panic(c) =>
        r := Panic(c);
      case Ok(Outcome(None, _)) =>
        r := Ok(Skip);
      case Ok(Outcome(Some(m), i)) =>
        r := Ok(Store(JsonObject(m), i));
    } else if IsJsonArr(value) {
      assert Classify(value) == ArrayLexeme;
      var items := SplitOnCommasPreservingQuotes(value[2..|value| - 2]);
      var arr := ReadArray(items, |value| - 1);
      match arr
      case Panic(c) =>
        r := Panic(c);
      case Ok(es) =>
        r := Ok(Store(JsonArray(es), 0));
    } else {
      assert Classify(value) == StringLexeme;
      r := Ok(Store(JsonString(RemoveQuotes(value)), 0));
    }
  }

  /** The loop over the items of an array value, pushing onto the vector. */
  method ReadArray(items: seq<string>, ghost bound: nat) returns (r: Result<seq<JsonValue>>)
    requires forall k :: 0 <= k < |items| ==> |items[k]| <= bound
    ensures r == Elements(items, bound)
    decreases bound, 1
  {
    var arr: seq<JsonValue> := [];
    ThenThen([], [], Elements(items, bound));
    assert items[0..] == items;
    for k := 0 to |items|
      invariant Elements(items, bound) == Then(arr, Elements(items[k..], bound))
    {
      var item := ReadItem(items[k]);
      ElementsStep(items, k, arr, bound);
      if item.Panic? {
        return Panic(item.cause);
      }
      arr := arr + Pushed(item.value);
    }
    assert items[|items|..] == [] && arr + [] == arr;
    r := Ok(arr);
  }

  /** The classification chain `read` runs on one array item. */
  method ReadItem(item: string) returns (r: Result<Option<JsonValue>>)
    ensures r == ItemOf(item)
    decreases |item|, 0
  {
    if IsInt(item) {
      assert Classify(item) == IntLexeme;
      var n := IntValue(item);
      if I32_MIN <= n <= I32_MAX {
        r := Ok(Some(JsonInt(n)));
      } else {
        r := Panic(I32Overflow(item));
      }
    } else if IsFloat(item) {
      assert Classify(item) == FloatLexeme;
      r := Ok(Some(JsonFloat(item)));
    } else if IsBool(item) {
      assert Classify(item) == BoolLexeme;
      r := Ok(Some(JsonBoolean(item == "true")));
    } else if IsJsonObject(item) {
      assert Classify(item) == ObjectLexeme;
      var nested := Read(item[1..|item| - 1]);
      match nested
      case Panic(c) =>
        r := Panic(c);
      case Ok(Outcome(None, _)) =>
        r := Ok(None);
      case Ok(Outcome(Some(m), _)) =>
        r := Ok(Some(JsonObject(m)));
    } else if IsJsonArr(item) {
      assert Classify(item) == ArrayLexeme;
      r := Ok(None);
    } else {
      assert Classify(item) == StringLexeme;
      r := Ok(Some(JsonString(RemoveQuotes(item))));
    }
  }

  /** The item at `k` either panics, ending the array, or pushes what it
      contributes onto the elements read so far. */
  lemma {:induction false} ElementsStep(items: seq<string>, k: nat, arr: seq<JsonValue>, bound: nat)
    requires k < |items|
    requires forall j :: 0 <= j < |items| ==> |items[j]| <= bound
    ensures ItemOf(items[k]).Panic? ==> Then(arr, Elements(items[k..], bound)) == Panic(ItemOf(items[k]).cause)
    ensures ItemOf(items[k]).Ok? ==>
              Then(arr, Elements(items[k..], bound)) == Then(arr + Pushed(ItemOf(items[k]).value), Elements(items[k + 1..], bound))
  {
    assert items[k..][0] == items[k] && items[k..][1..] == items[k + 1..];
    if ItemOf(items[k]).Ok? {
      ThenThen(arr, Pushed(ItemOf(items[k]).value), Elements(items[k + 1..], bound));
    }
  }

  lemma {:induction false} ThenThen(a: seq<JsonValue>, b: seq<JsonValue>, r: Result<seq<JsonValue>>)
    ensures Then(a, Then(b, r)) == Then(a + b, r)
    ensures Then([], r) == r
  {
    if r.Ok? {
      assert a + (b + r.value) == a + b + r.value;
      assert [] + r.value == r.value;
    }
  }

  /** `read_helper`: the map of `read`, without the cursor. */
  method ReadHelper(json: string) returns (r: Result<Option<JsonMap>>)
    ensures ReadSpec(json).Ok? ==> r == Ok(ReadSpec(json).value.obj)
    ensures ReadSpec(json).Panic? ==> r == Panic(ReadSpec(json).cause)
  {
    var outcome := Read(json);
    match outcome
    case Panic(c) =>
      r := Panic(c);
    case Ok(Outcome(obj, _)) =>
      r := Ok(obj);
  }
}
