/** What `read` makes of single values, and of a few whole inputs from
    the test module of src/json_reader.rs. */
module ReaderProperties {
  import opened JsonValues
  import opened Lexemes
  import opened Splitter
  import opened Reader

  // ---------------------------------------------------------------------
  // One value word.

  /** The text of every `i32` is read back as that integer. */
  lemma {:induction false} IntRoundTrip(n: Int32)
    ensures ValueOf(Render(n)) == Ok(Store(JsonInt(n), 0))
    ensures ItemOf(Render(n)) == Ok(Some(JsonInt(n)))
  {
    RenderThenParse(n);
    assert Classify(Render(n)) == IntLexeme;
  }

  /** The text of an `i64` outside the `i32` range passes `is_int`, and then
      `parse::<i32>().unwrap()` panics. */
  lemma {:induction false} WideIntPanics(n: int)
    requires I64_MIN <= n <= I64_MAX
    requires n < I32_MIN || I32_MAX < n
    ensures ValueOf(Render(n)) == Panic(I32Overflow(Render(n)))
    ensures ItemOf(Render(n)) == Panic(I32Overflow(Render(n)))
  {
    RenderThenParse(n);
    assert Classify(Render(n)) == IntLexeme;
  }

  /** A text in double quotes is stored without them, whatever it holds. */
  lemma {:induction false} QuotedValue(body: string)
    requires '"' !in body
    ensures ValueOf("\"" + body + "\"") == Ok(Store(JsonString(body), 0))
    ensures ItemOf("\"" + body + "\"") == Ok(Some(JsonString(body)))
  {
    var w := "\"" + body + "\"";
    assert w[0] == '"';
    ClassifyQuoted(w);
    Unquote(body);
  }

  /** `true` and `false` are stored as booleans. */
  lemma {:induction false} BoolValues()
    ensures ValueOf("true") == Ok(Store(JsonBoolean(true), 0))
    ensures ValueOf("false") == Ok(Store(JsonBoolean(false), 0))
  {
    ClassifyBool();
  }

  /** An array item that is itself an array adds nothing. */
  lemma {:induction false} NestedArrayItem(item: string)
    requires IsJsonArr(item)
    ensures ItemOf(item) == Ok(None)
  {
    ClassifyArray(item);
  }

  /** A nested object that reads as `None` is not stored: its key stays
      absent, and as an array item it adds nothing. */
  lemma {:induction false} EmptyNestedObject(value: string)
    requires IsJsonObject(value)
    requires ReadSpec(value[1..|value| - 1]).Ok? && ReadSpec(value[1..|value| - 1]).value.obj.None?
    ensures ValueOf(value) == Ok(Skip)
    ensures ItemOf(value) == Ok(None)
  {
    KindsDisjoint(value);
  }

  // ---------------------------------------------------------------------
  // Arrays.

  /** The values present among `os`, in order. */
  function Present(os: seq<Option<JsonValue>>): (vs: seq<JsonValue>)
    ensures |vs| <= |os|
  {
    if os == [] then [] else Pushed(os[0]) + Present(os[1..])
  }

  /** When no item panics, the array holds the values of the items that
      have one, in the order of the items. */
  lemma {:induction false} ElementsArePresent(items: seq<string>, os: seq<Option<JsonValue>>, bound: nat)
    requires forall k :: 0 <= k < |items| ==> |items[k]| <= bound
    requires |os| == |items|
    requires forall k :: 0 <= k < |items| ==> ItemOf(items[k]) == Ok(os[k])
    ensures Elements(items, bound) == Ok(Present(os))
  {
    if items != [] {
      assert ItemOf(items[0]) == Ok(os[0]);
      ElementsArePresent(items[1..], os[1..], bound);
    }
  }

  /** The first item that panics ends the whole read with its panic. */
  lemma {:induction false} ElementsPanic(items: seq<string>, i: nat, c: PanicCause, bound: nat)
    requires forall k :: 0 <= k < |items| ==> |items[k]| <= bound
    requires i < |items| && ItemOf(items[i]) == Panic(c)
    requires forall k :: 0 <= k < i ==> ItemOf(items[k]).Ok?
    ensures Elements(items, bound) == Panic(c)
  {
    PanicFrom(items, 0, i, c, bound);
    assert items[0..] == items;
  }

  /** `ElementsPanic` for the items from `j` on, by induction on `i - j`. */
  lemma {:induction false} PanicFrom(items: seq<string>, j: nat, i: nat, c: PanicCause, bound: nat)
    requires forall k :: 0 <= k < |items| ==> |items[k]| <= bound
    requires j <= i < |items| && ItemOf(items[i]) == Panic(c)
    requires forall k :: 0 <= k < i ==> ItemOf(items[k]).Ok?
    ensures Elements(items[j..], bound) == Panic(c)
    decreases i - j
  {
    var tail := items[j..];
    assert tail[0] == items[j];
    if j < i {
      PanicFrom(items, j + 1, i, c, bound);
      assert tail[1..] == items[j + 1..];
      ElementsAfterHead(tail, ItemOf(items[j]).value, Panic(c), bound);
    }
  }

  /** An item that reads as `o` pushes it in front of the rest. */
  lemma {:induction false} ElementsAfterHead(items: seq<string>, o: Option<JsonValue>,
                                             rest: Result<seq<JsonValue>>, bound: nat)
    requires forall k :: 0 <= k < |items| ==> |items[k]| <= bound
    requires items != [] && ItemOf(items[0]) == Ok(o)
    requires Elements(items[1..], bound) == rest
    ensures Elements(items, bound) == Then(Pushed(o), rest)
  {
  }

  /** A nested array between two text items is dropped; the texts keep
      their order. */
  lemma {:induction false} ArrayWithNestedArray(items: seq<string>, first: string, last: string, bound: nat)
    requires forall k :: 0 <= k < |items| ==> |items[k]| <= bound
    requires |items| == 3 && IsJsonArr(items[1])
    requires '"' !in first && items[0] == "\"" + first + "\""
    requires '"' !in last && items[2] == "\"" + last + "\""
    ensures Elements(items, bound) == Ok([JsonString(first), JsonString(last)])
  {
    QuotedValue(first);
    NestedArrayItem(items[1]);
    QuotedValue(last);
    SkipMiddle(items, JsonString(first), JsonString(last), bound);
  }

  /** Two values around an item that reads as nothing. */
  lemma {:induction false} SkipMiddle(items: seq<string>, x: JsonValue, y: JsonValue, bound: nat)
    requires forall k :: 0 <= k < |items| ==> |items[k]| <= bound
    requires |items| == 3
    requires ItemOf(items[0]) == Ok(Some(x)) && ItemOf(items[1]) == Ok(None) && ItemOf(items[2]) == Ok(Some(y))
    ensures Elements(items, bound) == Ok([x, y])
  {
    var last, middle := items[2..], items[1..];
    assert last[0] == items[2] && last[1..] == [];
    ElementsAfterHead(last, Some(y), Ok([]), bound);
    assert middle[0] == items[1] && middle[1..] == last;
    ElementsSkip(middle, bound);
    assert [y] + [] == [y];
    ElementsAfterHead(items, Some(x), Ok([y]), bound);
    assert [x] + [y] == [x, y];
  }

  /** An item that reads as nothing adds nothing. */
  lemma {:induction false} ElementsSkip(items: seq<string>, bound: nat)
    requires forall k :: 0 <= k < |items| ==> |items[k]| <= bound
    requires items != [] && ItemOf(items[0]) == Ok(None)
    ensures Elements(items, bound) == Elements(items[1..], bound)
  {
    match Elements(items[1..], bound)
    case Panic(_) =>
    case Ok(rest) => assert [] + rest == rest;
  }

  // ---------------------------------------------------------------------
  // The loop over words.

  /** A pair whose value is stored without a jump: the value goes into the
      map under the key with its quotes removed, replacing what the key held
      before, and the loop goes on four words further, over the vector with
      the value's trailing characters inserted after it. */
  lemma {:induction false} StorePair(words: seq<string>, size: nat, index: nat, acc: JsonMap, bound: nat, v: JsonValue)
    requires size <= |words| && Bounded(words, bound) && index < size && index + 3 < |words|
    requires words[index] == "{" || words[index] == ","
    requires ValueOf(DetachTrailing(words[index + 3]).value) == Ok(Store(v, 0))
    ensures Bounded(Insert(words, index + 4, DetachTrailing(words[index + 3]).inserted), bound)
    ensures ReadFrom(words, size, index, acc, bound) ==
            ReadFrom(Insert(words, index + 4, DetachTrailing(words[index + 3]).inserted), size, index + 4,
                     acc[RemoveQuotes(words[index + 1]) := v], bound)
  {
    var d := DetachTrailing(words[index + 3]);
    var after := Insert(words, index + 4, d.inserted);
    PairStep(words, size, index, acc, bound, after, d.value);
    var key := RemoveQuotes(words[index + 1]);
    LoopStep(ValueOf(d.value), after, size, index, key, acc, bound, index + 4, acc[key := v]);
  }

  /** `StorePair` for a value with nothing trailing: the vector is unchanged. */
  lemma {:induction false} StorePlainPair(words: seq<string>, size: nat, index: nat, acc: JsonMap, bound: nat, v: JsonValue)
    requires size <= |words| && Bounded(words, bound) && index < size && index + 3 < |words|
    requires words[index] == "{" || words[index] == ","
    requires DetachTrailing(words[index + 3]) == Detached(words[index + 3], [])
    requires ValueOf(words[index + 3]) == Ok(Store(v, 0))
    ensures ReadFrom(words, size, index, acc, bound) ==
            ReadFrom(words, size, index + 4, acc[RemoveQuotes(words[index + 1]) := v], bound)
  {
    StorePair(words, size, index, acc, bound, v);
    InsertNothing(words, index + 4);
  }

  lemma {:induction false} InsertNothing(ws: seq<string>, i: nat)
    requires i <= |ws|
    ensures Insert(ws, i, []) == ws
  {
    assert ws[..i] + ws[i..] == ws;
  }

  /** `StorePair` for a value followed by a comma: the comma becomes the
      word right after the value, where the loop goes on. */
  lemma {:induction false} StoreCommaPair(words: seq<string>, size: nat, index: nat, acc: JsonMap, bound: nat,
                       value: string, v: JsonValue)
    returns (after: seq<string>)
    requires size <= |words| && Bounded(words, bound) && index < size && index + 3 < |words|
    requires words[index] == "{" || words[index] == ","
    requires DetachTrailing(words[index + 3]) == Detached(value, [","])
    requires ValueOf(value) == Ok(Store(v, 0))
    ensures after == Insert(words, index + 4, [","]) && Bounded(after, bound)
    ensures after[index + 4] == ","
    ensures forall k :: index + 4 <= k < |words| ==> after[k + 1] == words[k]
    ensures ReadFrom(words, size, index, acc, bound) ==
            ReadFrom(after, size, index + 4, acc[RemoveQuotes(words[index + 1]) := v], bound)
  {
    StorePair(words, size, index, acc, bound, v);
    after := Insert(words, index + 4, [","]);
  }

  /** A second pair with the same key overwrites the first. In
      `{ "key" : "a", "key" : "b" }` the value word `"a",` has its comma split
      off into the vector, where the loop reads it as the separator before
      the second pair; the loop is bounded by the original eight words, so
      the final `}` is never visited. */
  lemma {:induction false} SameKeyOverwrites(words: seq<string>, key: string, a: string, b: string, bound: nat)
    requires '"' !in key && '"' !in a && '"' !in b
    requires |words| == 8 && words[0] == "{" && Bounded(words, bound)
    requires words[1] == "\"" + key + "\"" && words[4] == words[1]
    requires words[3] == "\"" + a + "\"" + "," && words[6] == "\"" + b + "\""
    ensures ReadFrom(words, 8, 0, map[], bound) == Ok(Outcome(Some(map[key := JsonString(b)]), 8))
  {
    var after := QuotedCommaPair(words, 8, 0, map[], bound, key, a);
    assert after[4] == "," && after[5] == words[4] && after[7] == words[6];
    var one := map[][key := JsonString(a)];
    QuotedPair(after, 8, 4, one, bound, key, b);
    var two := map[key := JsonString(b)];
    assert one[key := JsonString(b)] == two;
    Stops(after, 8, 8, two, bound);
    assert key in two;
  }

  /** An integer is never split: only a comma after it is. */
  lemma {:induction false} IntWordDetached(n: int)
    ensures DetachTrailing(Render(n)) == Detached(Render(n), [])
    ensures DetachTrailing(Render(n) + ",") == Detached(Render(n), [","])
  {
    var r := Render(n);
    RenderHasNoBrace(n);
    assert r[|r| - 1] in r;
    var w := r + ",";
    assert w[..|w| - 1] == r;
  }

  /** The text of an integer holds only a sign and digits. */
  lemma {:induction false} RenderHasNoBrace(n: int)
    ensures ',' !in Render(n) && '}' !in Render(n)
  {
    var d := if n < 0 then Decimal(-n) else Decimal(n);
    assert Render(n) == if n < 0 then "-" + d else d;
    assert forall i :: 0 <= i < |d| ==> IsDigit(d[i]);
  }

  // ---------------------------------------------------------------------
  // Whole inputs.

  /** `{}` is one word, at which the loop stops at once: nothing is stored,
      so the map is `None`. */
  lemma {:induction false} ReadEmptyObject()
    ensures ReadSpec("{}") == Ok(Outcome(None, 0))
  {
    WordsOfBraces();
    Starts("{}");
    Stops(["{}"], 1, 0, map[], 2);
  }

  /** A quoted value with spaces in it is one word and is stored whole; the
      loop stops at the closing `}`. */
  lemma {:induction false} ReadQuotedText()
    ensures ReadSpec("{ \"key\" : \"value is value\" }") ==
            Ok(Outcome(Some(map["key" := JsonString("value is value")]), 4))
  {
    WordsOfQuotedText();
    assert "\"" + "key" + "\"" == "\"key\"";
    assert "\"" + "value is value" + "\"" == "\"value is value\"";
    ReadOneStringText("{ \"key\" : \"value is value\" }", "key", "value is value");
  }

  /** A text whose words are `{`, a key, `:`, a quoted text and `}` reads as
      that one pair: the text is stored under the key and the loop stops at
      `}`, the fifth word. */
  lemma {:induction false} ReadOneStringText(json: string, key: string, text: string)
    requires '"' !in key && '"' !in text
    requires Words(json) == ["{", "\"" + key + "\"", ":", "\"" + text + "\"", "}"]
    ensures ReadSpec(json) == Ok(Outcome(Some(map[key := JsonString(text)]), 4))
  {
    Starts(json);
    var words := Words(json);
    var m := map[][key := JsonString(text)];
    QuotedPair(words, 5, 0, map[], |json|, key, text);
    Stops(words, 5, 4, m, |json|);
    assert key in m;
  }

  /** A pair whose value is a quoted text with nothing after it: the text,
      without its quotes, is stored under the key without its quotes. */
  lemma {:induction false} QuotedPair(words: seq<string>, size: nat, index: nat, acc: JsonMap, bound: nat, key: string, text: string)
    requires size <= |words| && Bounded(words, bound) && index < size && index + 3 < |words|
    requires words[index] == "{" || words[index] == ","
    requires '"' !in key && '"' !in text
    requires words[index + 1] == "\"" + key + "\"" && words[index + 3] == "\"" + text + "\""
    ensures ReadFrom(words, size, index, acc, bound) ==
            ReadFrom(words, size, index + 4, acc[key := JsonString(text)], bound)
  {
    var w := words[index + 3];
    assert w[|w| - 1] == '"';
    QuotedValue(text);
    Unquote(key);
    StorePlainPair(words, size, index, acc, bound, JsonString(text));
  }

  /** A pair whose value is a quoted text followed by a comma: the text is
      stored, and the comma becomes the word right after it. */
  lemma {:induction false} QuotedCommaPair(words: seq<string>, size: nat, index: nat, acc: JsonMap, bound: nat,
                                           key: string, text: string)
    returns (after: seq<string>)
    requires size <= |words| && Bounded(words, bound) && index < size && index + 3 < |words|
    requires words[index] == "{" || words[index] == ","
    requires '"' !in key && '"' !in text
    requires words[index + 1] == "\"" + key + "\"" && words[index + 3] == "\"" + text + "\"" + ","
    ensures after == Insert(words, index + 4, [","]) && Bounded(after, bound)
    ensures ReadFrom(words, size, index, acc, bound) ==
            ReadFrom(after, size, index + 4, acc[key := JsonString(text)], bound)
  {
    var value := "\"" + text + "\"";
    var w := words[index + 3];
    assert w[..|w| - 1] == value && value[|value| - 1] == '"';
    QuotedValue(text);
    Unquote(key);
    after := StoreCommaPair(words, size, index, acc, bound, value, JsonString(text));
  }

  // ---------------------------------------------------------------------
  // A pair without a value.

  /** In `{ "key" : }` the closing `}` is read as the value word. Its brace is
      split off and inserted after it, and the empty text that remains is
      stored as a string, so nothing panics and the loop ends at the bound. */
  lemma {:induction false} MissingValue(key: string, bound: nat)
    requires '"' !in key
    requires Bounded(["{", "\"" + key + "\"", ":", "}"], bound)
    ensures ReadFrom(["{", "\"" + key + "\"", ":", "}"], 4, 0, map[], bound) ==
            Ok(Outcome(Some(map[key := JsonString("")]), 4))
  {
    var words := ["{", "\"" + key + "\"", ":", "}"];
    EmptyValue();
    StorePair(words, 4, 0, map[], bound, JsonString(""));
    Unquote(key);
    var m := map[][key := JsonString("")];
    Stops(Insert(words, 4, ["}"]), 4, 4, m, bound);
    assert key in m;
  }

  /** The word `}` is a value that detaches to the empty text, and the empty
      text is stored as the empty string. */
  lemma {:induction false} EmptyValue()
    ensures DetachTrailing("}") == Detached("", ["}"])
    ensures ValueOf("") == Ok(Store(JsonString(""), 0))
  {
    assert Classify("") == StringLexeme;
  }

  /** In `{ "key" :}` the brace is part of the separator word, so fewer than
      four words start at `{` and the read of the value word panics. */
  lemma {:induction false} MissingValuePanics(key: string, bound: nat)
    requires Bounded(["{", key, ":}"], bound)
    ensures ReadFrom(["{", key, ":}"], 3, 0, map[], bound) == Panic(IndexOutOfBounds(3, 3))
  {
    PairPanics(["{", key, ":}"], 3, 0, map[], bound);
  }
}
