/**
 * The asset-parser command line: the (flag, value) argument loop that fills
 * the options object, and the small YAML-like serialiser used for the
 * manifest.
 */
module ParseAssets {
  import opened Wrappers
  import opened Text

  // ---------------------------------------------------------------- options

  const DEFAULT_SWG_PATH := "C:\\Users\\david\\OneDrive\\Desktop\\SWGTERRAIN"
  const DEFAULT_OUTPUT := "asset-manifest.json"
  const DEFAULT_FORMAT := "json"

  /** An option's value; `None` is the `undefined` a trailing flag without a value stores. */
  datatype Options = Options(swgPath: Option<string>, output: Option<string>, format: Option<string>)

  const DEFAULTS := Options(Some(DEFAULT_SWG_PATH), Some(DEFAULT_OUTPUT), Some(DEFAULT_FORMAT))

  /** `args[i]`, which is `undefined` past the end. */
  function ArgAt(args: seq<string>, i: nat): Option<string>
  {
    if i < |args| then Some(args[i]) else None
  }

  /** One pass of the `switch`: a known flag overwrites its option, any other flag changes nothing. */
  function ApplyFlag(o: Options, flag: string, value: Option<string>): Options
  {
    if flag == "--swg-path" then o.(swgPath := value)
    else if flag == "--output" then o.(output := value)
    else if flag == "--format" then o.(format := value)
    else o
  }

  /** The options after consuming `args` from index `i` on, two at a time. */
  function ConsumeFrom(o: Options, args: seq<string>, i: nat): Options
    decreases |args| - i
  {
    if i >= |args| then o else ConsumeFrom(ApplyFlag(o, args[i], ArgAt(args, i + 1)), args, i + 2)
  }

  /** The options object of the script and the loop over `process.argv.slice(2)`. */
  class CliOptions {
    var swgPath: Option<string>
    var output: Option<string>
    var format: Option<string>

    function Value(): Options
      reads this
    {
      Options(swgPath, output, format)
    }

    constructor ()
      ensures Value() == DEFAULTS
    {
      swgPath := Some(DEFAULT_SWG_PATH);
      output := Some(DEFAULT_OUTPUT);
      format := Some(DEFAULT_FORMAT);
    }

    method ParseArgs(args: seq<string>)
      modifies this
      ensures Value() == ConsumeFrom(old(Value()), args, 0)
    {
      ghost var target := ConsumeFrom(Value(), args, 0);
      var i := 0;
      while i < |args|
        invariant ConsumeFrom(Value(), args, i) == target
        decreases |args| - i
      {
        var flag := args[i];
        var value := if i + 1 < |args| then Some(args[i + 1]) else None;
        if flag == "--swg-path" {
          swgPath := value;
        } else if flag == "--output" {
          output := value;
        } else if flag == "--format" {
          format := value;
        }
        i := i + 2;
      }
    }
  }

  /** The option a known flag writes. */
  function Field(o: Options, flag: string): Option<string>
  {
    if flag == "--swg-path" then o.swgPath else if flag == "--output" then o.output else o.format
  }

  predicate KnownFlag(flag: string)
  {
    flag == "--swg-path" || flag == "--output" || flag == "--format"
  }

  /** `flag` sits in a flag position (an even index at or after `i`) of `args`. */
  predicate FlagAt(args: seq<string>, i: nat, k: nat, flag: string)
  {
    i <= k < |args| && (k - i) % 2 == 0 && args[k] == flag
  }

  /**
   * The last occurrence of a known flag in a flag position decides its
   * option, which is then the argument after it (or `undefined`); with no
   * occurrence the option keeps its earlier value.
   */
  lemma {:induction false} LastFlagWins(o: Options, args: seq<string>, i: nat, flag: string)
    requires KnownFlag(flag)
    ensures var r := Field(ConsumeFrom(o, args, i), flag);
      (r == Field(o, flag) && forall k: nat :: !FlagAt(args, i, k, flag)) ||
      (exists k: nat :: FlagAt(args, i, k, flag) && r == ArgAt(args, k + 1) &&
         forall k': nat :: k < k' ==> !FlagAt(args, i, k', flag))
    decreases |args| - i
  {
    if i < |args| {
      var j := i + 2;
      var o' := ApplyFlag(o, args[i], ArgAt(args, i + 1));
      LastFlagWins(o', args, j, flag);
      var r := Field(ConsumeFrom(o, args, i), flag);
      assert r == Field(ConsumeFrom(o', args, j), flag);
      assert forall k: nat :: FlagAt(args, i, k, flag) && k != i ==> FlagAt(args, j, k, flag);
      if exists k: nat :: FlagAt(args, j, k, flag) && r == ArgAt(args, k + 1) &&
           forall k': nat :: k < k' ==> !FlagAt(args, j, k', flag) {
        var k: nat :| FlagAt(args, j, k, flag) && r == ArgAt(args, k + 1) &&
          forall k': nat :: k < k' ==> !FlagAt(args, j, k', flag);
        assert FlagAt(args, i, k, flag);
      } else if args[i] == flag {
        assert FlagAt(args, i, i, flag);
        assert Field(o', flag) == ArgAt(args, i + 1);
      } else {
        assert Field(o', flag) == Field(o, flag);
      }
    }
  }

  /** Arguments with no known flag in a flag position leave every option as it was. */
  lemma {:induction false} UnknownFlagsChangeNothing(o: Options, args: seq<string>, i: nat)
    requires forall k: nat :: i <= k < |args| && (k - i) % 2 == 0 ==> !KnownFlag(args[k])
    ensures ConsumeFrom(o, args, i) == o
    decreases |args| - i
  {
    if i < |args| {
      assert !KnownFlag(args[i]);
      UnknownFlagsChangeNothing(o, args, i + 2);
    }
  }

  // ------------------------------------------------------------ objectToYAML

  /**
   * A JSON-like value. `Scalar` is any string, number or boolean, holding its
   * template-literal rendering.
   */
  datatype Value =
    | Null
    | Undefined
    | Scalar(text: string)
    | Arr(items: seq<Value>)
    | Obj(entries: seq<Entry>)

  datatype Entry = Entry(key: string, value: Value)

  /** `typeof v === 'object'`, which holds for `null` and for arrays. */
  predicate IsObject(v: Value)
  {
    v.Null? || v.Arr? || v.Obj?
  }

  /** `objectToYAML(v, indent)`; `None` is the TypeError `Object.entries(null)` throws. */
  function RenderObject(v: Value, indent: nat): Option<string>
    requires IsObject(v)
    decreases v, 0
  {
    match v
    case Obj(es) =>
      (match EntriesLines(es, indent) case Some(lines) => Some(Join(lines, "\n")) case None => None)
    case Arr(items) =>
      (match IndexedLines(items, 0, indent) case Some(lines) => Some(Join(lines, "\n")) case None => None)
    case Null => None
  }

  /** The lines of the object's entries, in order (what `Object.entries` of an object yields). */
  function EntriesLines(es: seq<Entry>, indent: nat): Option<seq<string>>
    decreases es, 2
  {
    if es == [] then Some([])
    else match (EntryLines(es[0].key, es[0].value, indent), EntriesLines(es[1..], indent))
      case (Some(a), Some(b)) => Some(a + b)
      case _ => None
  }

  /** The lines of an array rendered as an object, keyed by the indices from `start` on. */
  function IndexedLines(items: seq<Value>, start: nat, indent: nat): Option<seq<string>>
    decreases items, 2
  {
    if items == [] then Some([])
    else match (EntryLines(NatToString(start), items[0], indent), IndexedLines(items[1..], start + 1, indent))
      case (Some(a), Some(b)) => Some(a + b)
      case _ => None
  }

  /** The lines one `[key, value]` pair pushes. */
  function EntryLines(key: string, value: Value, indent: nat): Option<seq<string>>
    decreases value, 1
  {
    var spaces := Spaces(indent);
    match value
    case Null => Some([spaces + key + ": null"])
    case Undefined => Some([spaces + key + ": null"])
    case Obj(_) =>
      (match RenderObject(value, indent + 2) case Some(t) => Some([spaces + key + ":", t]) case None => None)
    case Arr(items) =>
      (match ItemLines(items, indent) case Some(ls) => Some([spaces + key + ":"] + ls) case None => None)
    case Scalar(t) => Some([spaces + key + ": " + t])
  }

  /** The lines the items of an array value push. */
  function ItemLines(items: seq<Value>, indent: nat): Option<seq<string>>
    decreases items, 0
  {
    if items == [] then Some([])
    else
      var spaces := Spaces(indent);
      var head :=
        if IsObject(items[0]) then
          (match RenderObject(items[0], indent + 4) case Some(t) => Some([spaces + "  -", t]) case None => None)
        else if items[0].Undefined? then Some([spaces + "  - undefined"])
        else Some([spaces + "  - " + items[0].text]);
      match (head, ItemLines(items[1..], indent))
      case (Some(a), Some(b)) => Some(a + b)
      case _ => None
  }

  /**
   * `objectToYAML(v)` throws: `v` is `null`, or one of its entries' values
   * throws. For an array argument the entries are its items, keyed by index.
   */
  predicate Throws(v: Value)
    requires IsObject(v)
    decreases v, 0
  {
    match v
    case Null => true
    case Obj(es) => exists k :: 0 <= k < |es| && EntryThrows(es[k].value)
    case Arr(items) => exists k :: 0 <= k < |items| && EntryThrows(items[k])
  }

  /**
   * Printing the value of a pair throws: a nested object that throws, or an
   * array value with an item of type `'object'` (`null` included) that throws.
   */
  predicate EntryThrows(v: Value)
    decreases v, 1
  {
    match v
    case Obj(_) => Throws(v)
    case Arr(items) => exists k :: 0 <= k < |items| && IsObject(items[k]) && Throws(items[k])
    case _ => false
  }

  /** Rendering fails exactly when the throwing condition holds. */
  lemma {:induction false} RenderFailsIffThrows(v: Value, indent: nat)
    requires IsObject(v)
    ensures RenderObject(v, indent).None? <==> Throws(v)
    decreases v, 0
  {
    match v
    case Obj(es) => EntriesFailIff(es, indent);
    case Arr(items) => IndexedFailIff(items, 0, indent);
    case Null =>
  }

  lemma {:induction false} EntryFailsIff(key: string, value: Value, indent: nat)
    ensures EntryLines(key, value, indent).None? <==> EntryThrows(value)
    decreases value, 1
  {
    match value
    case Obj(_) => RenderFailsIffThrows(value, indent + 2);
    case Arr(items) => ItemsFailIff(items, indent);
    case _ =>
  }

  lemma {:induction false} EntriesFailIff(es: seq<Entry>, indent: nat)
    ensures EntriesLines(es, indent).None? <==> exists k :: 0 <= k < |es| && EntryThrows(es[k].value)
    decreases es, 2
  {
    if es != [] {
      EntryFailsIff(es[0].key, es[0].value, indent);
      EntriesFailIff(es[1..], indent);
      if exists k :: 0 <= k < |es| && EntryThrows(es[k].value) {
        var k :| 0 <= k < |es| && EntryThrows(es[k].value);
        if k > 0 {
          assert es[1..][k - 1] == es[k];
        }
      }
      if exists k :: 0 <= k < |es| - 1 && EntryThrows(es[1..][k].value) {
        var k :| 0 <= k < |es| - 1 && EntryThrows(es[1..][k].value);
        assert es[1..][k] == es[k + 1];
      }
    }
  }

  lemma {:induction false} IndexedFailIff(items: seq<Value>, start: nat, indent: nat)
    ensures IndexedLines(items, start, indent).None? <==> exists k :: 0 <= k < |items| && EntryThrows(items[k])
    decreases items, 2
  {
    if items != [] {
      EntryFailsIff(NatToString(start), items[0], indent);
      IndexedFailIff(items[1..], start + 1, indent);
      if exists k :: 0 <= k < |items| && EntryThrows(items[k]) {
        var k :| 0 <= k < |items| && EntryThrows(items[k]);
        if k > 0 {
          assert items[1..][k - 1] == items[k];
        }
      }
    }
  }

  lemma {:induction false} ItemsFailIff(items: seq<Value>, indent: nat)
    ensures ItemLines(items, indent).None? <==>
      exists k :: 0 <= k < |items| && IsObject(items[k]) && Throws(items[k])
    decreases items, 1
  {
    if items != [] {
      if IsObject(items[0]) {
        RenderFailsIffThrows(items[0], indent + 4);
      }
      ItemsFailIff(items[1..], indent);
      if exists k :: 0 <= k < |items| && IsObject(items[k]) && Throws(items[k]) {
        var k :| 0 <= k < |items| && IsObject(items[k]) && Throws(items[k]);
        if k > 0 {
          assert items[1..][k - 1] == items[k];
        }
      }
    }
  }

  /** No `null` anywhere inside. */
  predicate NullFree(v: Value)
    decreases v
  {
    match v
    case Null => false
    case Obj(es) => forall k :: 0 <= k < |es| ==> NullFree(es[k].value)
    case Arr(items) => forall k :: 0 <= k < |items| ==> NullFree(items[k])
    case _ => true
  }

  /** A value with no `null` inside never throws, so its rendering always exists. */
  lemma {:induction false} NullFreeRenders(v: Value, indent: nat)
    requires IsObject(v) && NullFree(v)
    ensures RenderObject(v, indent).Some?
  {
    NullFreeNeverThrows(v);
    RenderFailsIffThrows(v, indent);
  }

  lemma {:induction false} NullFreeNeverThrows(v: Value)
    requires NullFree(v)
    ensures !EntryThrows(v)
    ensures IsObject(v) ==> !Throws(v)
    decreases v
  {
    match v
    case Obj(es) =>
      forall k | 0 <= k < |es|
        ensures !EntryThrows(es[k].value)
      {
        NullFreeNeverThrows(es[k].value);
      }
    case Arr(items) =>
      forall k | 0 <= k < |items|
        ensures !EntryThrows(items[k]) && (IsObject(items[k]) ==> !Throws(items[k]))
      {
        NullFreeNeverThrows(items[k]);
      }
    case _ =>
  }

  /** A `null` item of an array value throws, so the whole rendering fails. */
  lemma NullArrayItemThrows(key: string, items: seq<Value>, k: nat, indent: nat)
    requires k < |items| && items[k].Null?
    ensures RenderObject(Obj([Entry(key, Arr(items))]), indent).None?
  {
    RenderFailsIffThrows(Obj([Entry(key, Arr(items))]), indent);
    assert EntryThrows(Arr(items));
    assert [Entry(key, Arr(items))][0].value == Arr(items);
  }

  /** Keys are rendered in order: the lines of `a + b` are the lines of `a` followed by those of `b`. */
  lemma {:induction false} EntriesLinesAppend(a: seq<Entry>, b: seq<Entry>, indent: nat)
    ensures EntriesLines(a + b, indent) ==
      match (EntriesLines(a, indent), EntriesLines(b, indent))
      case (Some(x), Some(y)) => Some(x + y)
      case _ => None
    decreases |a|
  {
    if a == [] {
      assert a + b == b;
      var u := EntriesLines(b, indent);
      if u.Some? {
        assert [] + u.value == u.value;
      }
    } else {
      assert (a + b)[0] == a[0];
      assert (a + b)[1..] == a[1..] + b;
      EntriesLinesAppend(a[1..], b, indent);
      var h := EntryLines(a[0].key, a[0].value, indent);
      var t := EntriesLines(a[1..], indent);
      var u := EntriesLines(b, indent);
      if h.Some? && t.Some? && u.Some? {
        assert h.value + (t.value + u.value) == (h.value + t.value) + u.value;
      }
    }
  }

  /** A value `objectToYAML` prints on the key's own line. */
  predicate Flat(v: Value)
  {
    v.Null? || v.Undefined? || (v.Scalar? && '\n' !in v.text)
  }

  /** The line a flat value's pair prints. */
  function FlatLine(e: Entry, indent: nat): string
    requires Flat(e.value)
  {
    if e.value.Scalar? then Spaces(indent) + e.key + ": " + e.value.text else Spaces(indent) + e.key + ": null"
  }

  /**
   * An object of flat values with single-line keys prints one line per key,
   * in order, each indented by `indent` spaces: splitting the output on
   * line breaks gives exactly those lines.
   */
  lemma FlatObjectLines(es: seq<Entry>, indent: nat)
    requires |es| >= 1
    requires forall k :: 0 <= k < |es| ==> Flat(es[k].value) && '\n' !in es[k].key
    ensures RenderObject(Obj(es), indent).Some?
    ensures var lines := Split(RenderObject(Obj(es), indent).value, '\n');
      |lines| == |es| && forall k :: 0 <= k < |es| ==> lines[k] == FlatLine(es[k], indent)
  {
    FlatEntriesLines(es, indent);
    var lines := EntriesLines(es, indent).value;
    forall k | 0 <= k < |lines|
      ensures '\n' !in lines[k]
    {
      assert lines[k] == FlatLine(es[k], indent);
    }
    SplitJoin(lines, '\n');
  }

  lemma {:induction false} FlatEntriesLines(es: seq<Entry>, indent: nat)
    requires forall k :: 0 <= k < |es| ==> Flat(es[k].value)
    ensures EntriesLines(es, indent).Some?
    ensures var lines := EntriesLines(es, indent).value;
      |lines| == |es| && forall k :: 0 <= k < |es| ==> lines[k] == FlatLine(es[k], indent)
    decreases |es|
  {
    if es != [] {
      FlatEntriesLines(es[1..], indent);
      assert Flat(es[0].value);
      assert EntryLines(es[0].key, es[0].value, indent) == Some([FlatLine(es[0], indent)]);
      var lines := EntriesLines(es, indent).value;
      forall k | 0 < k < |es|
        ensures lines[k] == FlatLine(es[k], indent)
      {
        assert es[1..][k - 1] == es[k];
      }
    }
  }

  /** An empty nested object still pushes its (empty) rendering, so it prints a blank line. */
  lemma EmptyNestedObjectBlankLine(key: string, indent: nat)
    ensures EntryLines(key, Obj([]), indent) == Some([Spaces(indent) + key + ":", ""])
  {
  }
}
