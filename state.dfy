/** The playground's session state: the file store, the tab list derived from
    it, the active tab, and the compile output and flags, as the module sets
    them up when it is loaded. */
module PlaygroundState {
  import opened Wrappers
  import opened Decimal
  import Text
  import CompileWorker

  // ---------------------------------------------------------------------
  // The key order of a plain object

  /** A key that an object lists before all others: the canonical decimal form
      of an integer from 0 to 2^32 - 2. */
  predicate IsArrayIndex(k: string) {
    |k| > 0 && AllDigits(k) && (k[0] == '0' ==> k == "0") && DigitsValue(k) < 0xFFFF_FFFF
  }

  function IndexValue(k: string): nat
    requires IsArrayIndex(k)
  {
    DigitsValue(k)
  }

  predicate AllIndices(s: seq<string>) {
    forall i :: 0 <= i < |s| ==> IsArrayIndex(s[i])
  }

  predicate AscendingIndices(s: seq<string>)
    requires AllIndices(s)
  {
    forall i, j :: 0 <= i < j < |s| ==> IndexValue(s[i]) <= IndexValue(s[j])
  }

  /** The keys of `s` that are array indices, in order. */
  function Indices(s: seq<string>): (r: seq<string>)
    ensures AllIndices(r)
  {
    if |s| == 0 then []
    else if IsArrayIndex(s[0]) then [s[0]] + Indices(s[1..])
    else Indices(s[1..])
  }

  /** The keys of `s` that are not array indices, in order. */
  function Names(s: seq<string>): (r: seq<string>)
    ensures forall i :: 0 <= i < |r| ==> !IsArrayIndex(r[i])
  {
    if |s| == 0 then []
    else if IsArrayIndex(s[0]) then Names(s[1..])
    else [s[0]] + Names(s[1..])
  }

  /** Places an array-index key among ascending ones. */
  function InsertIndex(k: string, s: seq<string>): (r: seq<string>)
    requires IsArrayIndex(k) && AllIndices(s)
    ensures AllIndices(r) && |r| == |s| + 1
  {
    if |s| == 0 || IndexValue(k) <= IndexValue(s[0]) then [k] + s
    else [s[0]] + InsertIndex(k, s[1..])
  }

  function SortIndices(s: seq<string>): (r: seq<string>)
    requires AllIndices(s)
    ensures AllIndices(r) && |r| == |s|
  {
    if |s| == 0 then [] else InsertIndex(s[0], SortIndices(s[1..]))
  }

  /** `Object.keys` of an object whose keys were added in the order `order`:
      the array-index keys in ascending numeric order, then the other keys in
      the order they were added. */
  function ObjectKeys(order: seq<string>): seq<string> {
    SortIndices(Indices(order)) + Names(order)
  }

  lemma {:induction false} InsertIndexPerm(k: string, s: seq<string>)
    requires IsArrayIndex(k) && AllIndices(s)
    ensures multiset(InsertIndex(k, s)) == multiset([k]) + multiset(s)
  {
    if |s| > 0 && IndexValue(k) > IndexValue(s[0]) {
      InsertIndexPerm(k, s[1..]);
      assert s == [s[0]] + s[1..];
    }
  }

  lemma {:induction false} InsertIndexBound(k: string, s: seq<string>, b: nat)
    requires IsArrayIndex(k) && AllIndices(s)
    requires b <= IndexValue(k) && forall i :: 0 <= i < |s| ==> b <= IndexValue(s[i])
    ensures forall i :: 0 <= i < |InsertIndex(k, s)| ==> b <= IndexValue(InsertIndex(k, s)[i])
  {
    if |s| > 0 && IndexValue(k) > IndexValue(s[0]) {
      InsertIndexBound(k, s[1..], b);
      var r := InsertIndex(k, s[1..]);
      assert InsertIndex(k, s) == [s[0]] + r;
      forall i | 0 <= i < |r| + 1 ensures b <= IndexValue(([s[0]] + r)[i]) {
        if i > 0 {
          assert ([s[0]] + r)[i] == r[i - 1];
          assert b <= IndexValue(r[i - 1]);
        } else {
          assert ([s[0]] + r)[i] == s[0];
          assert b <= IndexValue(s[0]);
        }
      }
    }
  }

  lemma {:induction false} InsertIndexSorted(k: string, s: seq<string>)
    requires IsArrayIndex(k) && AllIndices(s) && AscendingIndices(s)
    ensures AscendingIndices(InsertIndex(k, s))
  {
    if |s| > 0 && IndexValue(k) > IndexValue(s[0]) {
      var tail := s[1..];
      InsertIndexSorted(k, tail);
      InsertIndexBound(k, tail, IndexValue(s[0]));
      var r := InsertIndex(k, tail);
      var out := [s[0]] + r;
      assert InsertIndex(k, s) == out;
      forall i, j | 0 <= i < j < |out| ensures IndexValue(out[i]) <= IndexValue(out[j]) {
        assert out[j] == r[j - 1];
        if i > 0 {
          assert out[i] == r[i - 1];
          assert IndexValue(r[i - 1]) <= IndexValue(r[j - 1]);
        } else {
          assert out[i] == s[0];
          assert IndexValue(s[0]) <= IndexValue(r[j - 1]);
        }
      }
    }
  }

  /** The array-index keys come out in ascending order, each exactly as often as it went in. */
  lemma {:induction false} SortIndicesProps(s: seq<string>)
    requires AllIndices(s)
    ensures AscendingIndices(SortIndices(s))
    ensures multiset(SortIndices(s)) == multiset(s)
  {
    if |s| > 0 {
      SortIndicesProps(s[1..]);
      InsertIndexSorted(s[0], SortIndices(s[1..]));
      InsertIndexPerm(s[0], SortIndices(s[1..]));
      assert s == [s[0]] + s[1..];
    }
  }

  lemma {:induction false} SplitPermutation(s: seq<string>)
    ensures multiset(Indices(s)) + multiset(Names(s)) == multiset(s)
  {
    if |s| > 0 {
      SplitPermutation(s[1..]);
      assert s == [s[0]] + s[1..];
    }
  }

  lemma {:induction false} NamesOfNames(s: seq<string>)
    requires forall i :: 0 <= i < |s| ==> !IsArrayIndex(s[i])
    ensures Indices(s) == [] && Names(s) == s
  {
    if |s| > 0 {
      NamesOfNames(s[1..]);
    }
  }

  /** The listed keys are the added keys, rearranged: array indices first, ascending. */
  lemma ObjectKeysPermutes(order: seq<string>)
    ensures multiset(ObjectKeys(order)) == multiset(order)
    ensures var k := ObjectKeys(order);
            var n := |Indices(order)|;
            && AllIndices(k[..n]) && AscendingIndices(k[..n])
            && (forall i :: n <= i < |k| ==> !IsArrayIndex(k[i]))
  {
    SortIndicesProps(Indices(order));
    SplitPermutation(order);
    var k := ObjectKeys(order);
    assert k[..|Indices(order)|] == SortIndices(Indices(order));
  }

  /** With no array-index key among them, the keys are listed in the order they were added. */
  lemma ObjectKeysInsertionOrder(order: seq<string>)
    requires forall i :: 0 <= i < |order| ==> !IsArrayIndex(order[i])
    ensures ObjectKeys(order) == order
  {
    NamesOfNames(order);
  }

  /** A file named like an array index moves to the front of the tabs, and such
      files are ordered by value, not as text: `10` comes after `2`. */
  lemma ObjectKeysHoistsIndices()
    ensures ObjectKeys(["main.ts", "10", "2"]) == ["2", "10", "main.ts"]
  {
    assert DigitsValue("2") == 2;
    assert DigitsValue("10") == 10 by {
      assert "10"[..1] == "1";
    }
    assert !IsArrayIndex("main.ts") by {
      assert !IsDigit('m');
    }
    var order := ["main.ts", "10", "2"];
    assert order[1..] == ["10", "2"];
    assert order[1..][1..] == ["2"];
    assert Indices(order) == ["10", "2"];
    assert Names(order) == ["main.ts"];
  }

  // ---------------------------------------------------------------------
  // The file store

  /** `order` lists each key of `files` once, in the order it was added. */
  ghost predicate Tracks(order: seq<string>, files: map<string, string>) {
    && (forall i, j :: 0 <= i < j < |order| ==> order[i] != order[j])
    && (forall k :: k in files <==> k in order)
  }

  /** The key order after `files[name] = text`: a new key goes last; an existing key keeps its place. */
  function Added(order: seq<string>, name: string): seq<string> {
    if name in order then order else order + [name]
  }

  /** The tabs are exactly the file names, each once. */
  lemma TabsAreFileNames(order: seq<string>, files: map<string, string>)
    requires Tracks(order, files)
    ensures forall k :: k in ObjectKeys(order) <==> k in files
    ensures |ObjectKeys(order)| == |files|
  {
    ObjectKeysPermutes(order);
    forall k ensures k in ObjectKeys(order) <==> k in order {
      assert k in ObjectKeys(order) <==> k in multiset(ObjectKeys(order));
    }
    DistinctCount(order, files.Keys);
  }

  lemma {:induction false} DistinctCount(order: seq<string>, keys: set<string>)
    requires forall i, j :: 0 <= i < j < |order| ==> order[i] != order[j]
    requires forall k :: k in keys <==> k in order
    ensures |keys| == |order|
  {
    if |order| > 0 {
      var last := order[|order| - 1];
      var rest := order[..|order| - 1];
      forall k ensures k in keys - {last} <==> k in rest {
        if k in rest {
          var i :| 0 <= i < |rest| && rest[i] == k;
          assert order[i] == k;
        }
        if k in order && k != last {
          var i :| 0 <= i < |order| && order[i] == k;
          assert rest[i] == k;
        }
      }
      DistinctCount(rest, keys - {last});
    }
  }

  /** Adding or overwriting a file keeps the key order in step with the files. */
  lemma AddedTracks(order: seq<string>, files: map<string, string>, name: string, text: string)
    requires Tracks(order, files)
    ensures Tracks(Added(order, name), files[name := text])
    ensures name in files ==> ObjectKeys(Added(order, name)) == ObjectKeys(order)
  {
  }

  /** The initial files are not array indices, so the tabs list them in the order they were added. */
  lemma InitialTabs()
    ensures ObjectKeys(["main.ts", "tsconfig.json"]) == ["main.ts", "tsconfig.json"]
  {
    var order := ["main.ts", "tsconfig.json"];
    assert !IsDigit(order[0][0]) && !IsDigit(order[1][0]);
    ObjectKeysInsertionOrder(order);
  }

  /** The text of `main.ts` in a new session. */
  const MainSource := "const x: number = 1"

  /** The output directory the default configuration names. */
  const OutDir := "dist"

  // ---------------------------------------------------------------------
  // The default configuration and its JSON text

  datatype Json = JString(str: string) | JBool(flag: bool) | JObject(members: seq<(string, Json)>)

  /** The value of the first member named `key` of an object. */
  function Member(v: Json, key: string): (r: Option<Json>)
    ensures r.Some? ==> v.JObject? && exists i :: 0 <= i < |v.members| && v.members[i] == (key, r.value)
  {
    if v.JObject? then MemberOf(v.members, key) else None
  }

  function MemberOf(ms: seq<(string, Json)>, key: string): (r: Option<Json>)
    ensures r.Some? ==> exists i :: 0 <= i < |ms| && ms[i] == (key, r.value)
  {
    if |ms| == 0 then None
    else if ms[0].0 == key then Some(ms[0].1)
    else
      var r := MemberOf(ms[1..], key);
      assert r.Some? ==> exists i :: 0 <= i < |ms[1..]| && ms[1..][i] == (key, r.value);
      assert r.Some? ==> exists i :: 1 <= i < |ms| && ms[i] == (key, r.value);
      r
  }

  /** The compiler options of `tsconfig.json` in a new session. */
  function CompilerOptions(): seq<(string, Json)> {
    [("target", JString("esnext")),
     ("module", JString("esnext")),
     ("strict", JBool(true)),
     ("esModuleInterop", JBool(true)),
     ("outDir", JString(OutDir))]
  }

  /** `tsconfig.json` in a new session, as an object. */
  function DefaultConfig(): Json {
    JObject([("compilerOptions", JObject(CompilerOptions()))])
  }

  /** The JSON form of a string: quoted, with quotes and backslashes escaped. */
  function Quote(s: string): string {
    "\"" + Escape(s) + "\""
  }

  function Escape(s: string): string {
    if |s| == 0 then ""
    else (if s[0] == '"' then "\\\"" else if s[0] == '\\' then "\\\\" else [s[0]]) + Escape(s[1..])
  }

  function Indent(depth: nat): string {
    if depth == 0 then "" else "  " + Indent(depth - 1)
  }

  /** `JSON.stringify(v, undefined, 2)` for a value nested `depth` levels deep:
      members one per line, indented two spaces per level. */
  function Stringify(v: Json, depth: nat): string
    decreases v, 1
  {
    match v
    case JString(s) => Quote(s)
    case JBool(b) => if b then "true" else "false"
    case JObject(ms) =>
      if |ms| == 0 then "{}"
      else "{\n" + StringifyMembers(v, ms, depth + 1) + "\n" + Indent(depth) + "}"
  }

  function StringifyMembers(parent: Json, ms: seq<(string, Json)>, depth: nat): string
    requires forall i :: 0 <= i < |ms| ==> ms[i].1 < parent
    decreases parent, 0, |ms|
  {
    if |ms| == 0 then ""
    else
      Indent(depth) + Quote(ms[0].0) + ": " + Stringify(ms[0].1, depth)
      + (if |ms| == 1 then "" else ",\n" + StringifyMembers(parent, ms[1..], depth))
  }

  /** The text of `tsconfig.json` in a new session. */
  const TsconfigSource: string := Stringify(DefaultConfig(), 0)

  /** The default configuration sends compiled files to `dist`, the directory
      under the worker's `/app` that it reads results back from. */
  lemma OutDirIsDistRoot()
    ensures Member(DefaultConfig(), "compilerOptions") == Some(JObject(CompilerOptions()))
    ensures Member(JObject(CompilerOptions()), "outDir") == Some(JString(OutDir))
    ensures CompileWorker.AppRoot + "/" + OutDir == CompileWorker.DistRoot
  {
    var ms := CompilerOptions();
    assert ms[0].0[0] != 'o' && ms[1].0[0] != 'o' && ms[2].0[0] != 'o' && ms[3].0[0] != 'o';
    assert ms[4..][0] == ("outDir", JString(OutDir));
    assert ms[3..][1..] == ms[4..];
    assert ms[2..][1..] == ms[3..];
    assert ms[1..][1..] == ms[2..];
    assert MemberOf(ms[4..], "outDir") == Some(JString(OutDir));
    assert MemberOf(ms[3..], "outDir") == Some(JString(OutDir));
    assert MemberOf(ms[2..], "outDir") == Some(JString(OutDir));
    assert MemberOf(ms[1..], "outDir") == Some(JString(OutDir));
  }

  /** `main.ts` and `tsconfig.json`, whatever they hold, stage without a clash; a
      compiler that makes `/app/dist`, writes `main.js` there and exits with 0 gets
      back that one file, keyed `main.js`. */
  lemma DefaultNamesCompile(main: string, config: string, text: string, elapsed: real)
    ensures CompileWorker.CompileSpec([("main.ts", main), ("tsconfig.json", config)],
                                      CompileWorker.EmitThenExit("main.js", text, 0), elapsed)
            == CompileWorker.Returned(CompileWorker.CompileResult(Some(map["main.js" := Some(text)]), None, elapsed))
  {
    var files := [("main.ts", main), ("tsconfig.json", config)];
    assert files[0].0[0] == 'm' && files[1].0[0] == 't';
    assert CompileWorker.NoNameAboveAnother(files) by {
      forall i, j | 0 <= i < |files| && 0 <= j < |files|
        ensures !Text.StartsWith(files[j].0, files[i].0 + "/")
      {
        if i == j {
          assert |files[j].0| < |files[i].0 + "/"|;
        } else {
          assert files[j].0[0] != (files[i].0 + "/")[0];
        }
      }
    }
    CompileWorker.EmittedFileIsTheOutput(files, "main.js", text, elapsed);
  }

  /** The files of a new session, sent to the worker in key order, compile to the
      one file the compiler emits. */
  lemma NewSessionCompiles(text: string, elapsed: real)
    ensures CompileWorker.CompileSpec([("main.ts", MainSource), ("tsconfig.json", TsconfigSource)],
                                      CompileWorker.EmitThenExit("main.js", text, 0), elapsed)
            == CompileWorker.Returned(CompileWorker.CompileResult(Some(map["main.js" := Some(text)]), None, elapsed))
  {
    DefaultNamesCompile(MainSource, TsconfigSource, text, elapsed);
  }

  lemma {:induction false} EscapePlain(s: string)
    requires forall i :: 0 <= i < |s| ==> s[i] != '"' && s[i] != '\\'
    ensures Escape(s) == s
  {
    if |s| > 0 {
      EscapePlain(s[1..]);
    }
  }

  /** A string without quotes or backslashes is written as itself between quotes. */
  lemma StringifyPlainString(text: string, depth: nat)
    requires forall i :: 0 <= i < |text| ==> text[i] != '"' && text[i] != '\\'
    ensures Stringify(JString(text), depth) == "\"" + text + "\""
  {
    EscapePlain(text);
  }

  /** How `JSON.parse` reads back the body of a string: a backslash takes the next character literally. */
  function Unescape(s: string): string {
    if |s| == 0 then ""
    else if s[0] == '\\' && |s| >= 2 then [s[1]] + Unescape(s[2..])
    else [s[0]] + Unescape(s[1..])
  }

  /** Reading back an escaped string gives the original. */
  lemma {:induction false} EscapeRoundTrip(s: string)
    ensures Unescape(Escape(s)) == s
  {
    if |s| > 0 {
      EscapeRoundTrip(s[1..]);
      var rest := Escape(s[1..]);
      if s[0] == '"' || s[0] == '\\' {
        var e := ['\\', s[0]] + rest;
        assert Escape(s) == e;
        assert e[2..] == rest;
      } else {
        var e := [s[0]] + rest;
        assert Escape(s) == e;
        assert e[1..] == rest;
      }
      assert s == [s[0]] + s[1..];
    }
  }

  // ---------------------------------------------------------------------
  // The session store

  class Store {
    /** The file names in the order they were added. */
    var order: seq<string>
    var files: map<string, string>
    var active: string
    var outputFiles: map<string, Option<string>>
    var compiling: bool
    var timeCost: real
    var error: Option<string>
    var loading: bool

    ghost predicate Valid()
      reads this
    {
      Tracks(order, files)
    }

    /** `tabs`: the keys of `files`. */
    function Tabs(): seq<string>
      reads this
    {
      ObjectKeys(order)
    }

    /** `files[name] = text`. */
    method Put(name: string, text: string)
      requires Valid()
      modifies this
      ensures Valid()
      ensures files == old(files)[name := text] && order == Added(old(order), name)
      ensures active == old(active) && outputFiles == old(outputFiles) && compiling == old(compiling)
      ensures timeCost == old(timeCost) && error == old(error) && loading == old(loading)
    {
      AddedTracks(order, files, name, text);
      if name !in order {
        order := order + [name];
      }
      files := files[name := text];
    }

    /** The state when the module is loaded. */
    constructor ()
      ensures Valid()
      ensures order == ["main.ts", "tsconfig.json"]
      ensures files == map["main.ts" := MainSource, "tsconfig.json" := TsconfigSource]
      ensures Tabs() == ["main.ts", "tsconfig.json"]
      ensures active == "main.ts" && active in files
      ensures outputFiles == map[] && !compiling && timeCost == 0.0 && error == None && loading
    {
      order := [];
      files := map[];
      active := "";
      outputFiles := map[];
      compiling := false;
      timeCost := 0.0;
      error := None;
      loading := true;
      new;
      Put("main.ts", MainSource);
      assert order == ["main.ts"];
      assert "tsconfig.json" !in order by {
        assert |"tsconfig.json"| != |"main.ts"|;
      }
      Put("tsconfig.json", TsconfigSource);
      assert order == ["main.ts", "tsconfig.json"];
      active := "main.ts";
      InitialTabs();
    }
  }
}
