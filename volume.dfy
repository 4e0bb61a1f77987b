/** The in-memory volume a WasmFs instance owns, flattened to a map from absolute
    path to node. The root directory `/` always exists and is not an entry; every
    other directory, whether `mkdir` or `mkdirp` made it, is an entry of its own. */
module MemVolume {
  import opened Wrappers
  import opened Text

  datatype Node = File(data: string) | Dir

  type Entries = map<string, Node>

  const DevPath := "/dev"
  const StdinPath := "/dev/stdin"
  const StdoutPath := "/dev/stdout"
  const StderrPath := "/dev/stderr"

  /** The directories `p` lies in, other than the root: each prefix of `p` that a slash follows. */
  function Ancestors(p: string): set<string> {
    set i | 0 < i < |p| && p[i] == '/' :: p[..i]
  }

  /** `q` is a directory above `p` exactly when `p` starts with `q + "/"`. */
  lemma AncestorsIff(p: string, q: string)
    ensures q in Ancestors(p) <==> |q| > 0 && StartsWith(p, q + "/")
  {
    if q in Ancestors(p) {
      var i :| 0 < i < |p| && p[i] == '/' && p[..i] == q;
      assert p[..i + 1] == q + "/";
    }
    if |q| > 0 && StartsWith(p, q + "/") {
      var i := |q|;
      assert p[..i] == (q + "/")[..i] == q;
      assert p[i] == (q + "/")[i] == '/';
    }
  }

  /** A directory above a directory above `p` is above `p`. */
  lemma AncestorsTrans(p: string, q: string, r: string)
    requires q in Ancestors(p) && r in Ancestors(q)
    ensures r in Ancestors(p)
  {
    AncestorsIff(p, q);
    AncestorsIff(q, r);
    StartsWithTrans(p, q, r);
    AncestorsIff(p, r);
  }

  /** An entry directly below the root has no directory above it. */
  lemma AncestorsTop(name: string)
    requires '/' !in name
    ensures Ancestors("/" + name) == {}
  {
    var p := "/" + name;
    forall k | 0 < k < |p| ensures p[k] != '/' {
      assert p[k] == name[k - 1];
    }
  }

  /** The directories above `d/name` are those above `d`, and `d` itself. */
  lemma AncestorsChild(d: string, name: string)
    requires |d| > 0 && '/' !in name
    ensures Ancestors(d + "/" + name) == Ancestors(d) + {d}
  {
    var p := d + "/" + name;
    forall k | |d| < k < |p| ensures p[k] != '/' {
      assert p[k] == name[k - |d| - 1];
    }
    forall k | 0 <= k < |d| ensures p[k] == d[k] && p[..k] == d[..k] { }
    assert p[..|d|] == d && p[|d|] == '/';
    forall q | q in Ancestors(p) ensures q in Ancestors(d) + {d} {
      var i :| 0 < i < |p| && p[i] == '/' && p[..i] == q;
      if i < |d| {
        assert d[i] == '/' && d[..i] == q;
      }
    }
    forall q | q in Ancestors(d) ensures q in Ancestors(p) {
      var i :| 0 < i < |d| && d[i] == '/' && d[..i] == q;
      assert p[i] == '/' && p[..i] == q;
    }
  }

  /** The shape memfs keeps: every directory above an entry exists and is a directory. */
  ghost predicate WellFormed(e: Entries) {
    forall p, q :: p in e && q in Ancestors(p) ==> q in e && e[q].Dir?
  }

  /** A new WasmFs holds `/dev` and the three standard-stream files in it, empty. */
  function FreshEntries(): Entries {
    map[DevPath := Dir, StdinPath := File(""), StdoutPath := File(""), StderrPath := File("")]
  }

  lemma FreshWellFormed()
    ensures WellFormed(FreshEntries())
  {
    AncestorsTop("dev");
    assert DevPath == "/" + "dev";
    assert StdinPath == DevPath + "/" + "stdin";
    assert StdoutPath == DevPath + "/" + "stdout";
    assert StderrPath == DevPath + "/" + "stderr";
    AncestorsChild(DevPath, "stdin");
    AncestorsChild(DevPath, "stdout");
    AncestorsChild(DevPath, "stderr");
  }

  /** Where `fromJSON(json, cwd)` puts the key `name`: an absolute name is kept,
      a relative one is placed under `cwd`. */
  function Resolve(cwd: string, name: string): string {
    if StartsWith(name, "/") then name else cwd + "/" + name
  }

  /** `p` can take a file: it is not the root, not a directory, and no
      directory above it is a file. */
  predicate CanHoldFile(e: Entries, p: string) {
    p != "/" && !(p in e && e[p].Dir?) && forall q :: q in Ancestors(p) && q in e ==> e[q].Dir?
  }

  /** `mkdirp(dirname(p))`: every missing directory above `p` is created. */
  function MakeParents(e: Entries, p: string): Entries {
    map q | q in e.Keys + Ancestors(p) :: if q in e then e[q] else Dir
  }

  /** The volume after staging, and whether every key went in. */
  datatype Loaded = Loaded(volume: Entries, ok: bool)

  /** `fromJSON(files, cwd)`: for each key in order, create the directories above
      it and write the file. The first key that cannot take a file throws, and the
      volume keeps what the keys before it wrote. */
  function StageAll(e: Entries, files: seq<(string, string)>, cwd: string): Loaded
  {
    if files == [] then Loaded(e, true)
    else
      var before := StageAll(e, files[..|files| - 1], cwd);
      var last := files[|files| - 1];
      var p := Resolve(cwd, last.0);
      if !before.ok || !CanHoldFile(before.volume, p) then Loaded(before.volume, false)
      else Loaded(MakeParents(before.volume, p)[p := File(last.1)], true)
  }

  /** A file written where it can go, with its parents made first, keeps the volume well formed. */
  lemma PutFileWellFormed(e: Entries, p: string, d: string)
    requires WellFormed(e) && CanHoldFile(e, p)
    ensures WellFormed(MakeParents(e, p)[p := File(d)])
  {
    var f := MakeParents(e, p)[p := File(d)];
    forall r, q | r in f && q in Ancestors(r) ensures q in f && f[q].Dir? {
      AncestorsIff(p, q);
      if r == p {
      } else if r in Ancestors(p) {
        AncestorsTrans(p, r, q);
      } else {
        assert r in e;
      }
    }
  }

  /** Once a key fails, the keys after it are never written. */
  lemma {:induction false} StageAllFailStays(e: Entries, files: seq<(string, string)>, cwd: string, n: nat)
    requires n <= |files| && !StageAll(e, files[..n], cwd).ok
    ensures StageAll(e, files, cwd) == StageAll(e, files[..n], cwd)
  {
    if n < |files| {
      var init := files[..|files| - 1];
      assert init[..n] == files[..n];
      StageAllFailStays(e, init, cwd, n);
    } else {
      assert files[..n] == files;
    }
  }

  /** Staging keeps the volume well formed. */
  lemma {:induction false} StageAllWellFormed(e: Entries, files: seq<(string, string)>, cwd: string)
    requires WellFormed(e)
    ensures WellFormed(StageAll(e, files, cwd).volume)
  {
    if files != [] {
      var before := StageAll(e, files[..|files| - 1], cwd);
      StageAllWellFormed(e, files[..|files| - 1], cwd);
      var last := files[|files| - 1];
      if before.ok && CanHoldFile(before.volume, Resolve(cwd, last.0)) {
        PutFileWellFormed(before.volume, Resolve(cwd, last.0), last.1);
      }
    }
  }

  /** After a staging that went through, the volume holds exactly the old paths,
      the resolved keys and the directories above them. */
  lemma {:induction false} StageAllKeys(e: Entries, files: seq<(string, string)>, cwd: string, p: string)
    requires StageAll(e, files, cwd).ok
    ensures p in StageAll(e, files, cwd).volume <==>
              p in e || exists i :: 0 <= i < |files| && (p == Resolve(cwd, files[i].0) || p in Ancestors(Resolve(cwd, files[i].0)))
  {
    if files != [] {
      var init := files[..|files| - 1];
      StageAllKeys(e, init, cwd, p);
      if exists i :: 0 <= i < |files| && (p == Resolve(cwd, files[i].0) || p in Ancestors(Resolve(cwd, files[i].0))) {
        var i :| 0 <= i < |files| && (p == Resolve(cwd, files[i].0) || p in Ancestors(Resolve(cwd, files[i].0)));
        if i < |files| - 1 {
          assert init[i] == files[i];
        }
      }
      if exists i :: 0 <= i < |init| && (p == Resolve(cwd, init[i].0) || p in Ancestors(Resolve(cwd, init[i].0))) {
        var i :| 0 <= i < |init| && (p == Resolve(cwd, init[i].0) || p in Ancestors(Resolve(cwd, init[i].0)));
        assert files[i] == init[i];
      }
    }
  }

  /** After a staging that went through, each key that no later key overwrites
      holds its content as a file. */
  lemma {:induction false} StageAllEntry(e: Entries, files: seq<(string, string)>, cwd: string, i: nat)
    requires i < |files| && StageAll(e, files, cwd).ok
    requires forall j :: i < j < |files| ==> Resolve(cwd, files[j].0) != Resolve(cwd, files[i].0)
    ensures Resolve(cwd, files[i].0) in StageAll(e, files, cwd).volume
    ensures StageAll(e, files, cwd).volume[Resolve(cwd, files[i].0)] == File(files[i].1)
  {
    if i < |files| - 1 {
      var init := files[..|files| - 1];
      assert init[i] == files[i];
      forall j | i < j < |init| ensures Resolve(cwd, init[j].0) != Resolve(cwd, init[i].0) {
        assert init[j] == files[j];
      }
      StageAllEntry(e, init, cwd, i);
    }
  }

  /** A path that no key resolves to keeps whatever it held before staging. */
  lemma {:induction false} StageAllElsewhere(e: Entries, files: seq<(string, string)>, cwd: string, p: string)
    requires p in e
    requires forall j :: 0 <= j < |files| ==> Resolve(cwd, files[j].0) != p
    ensures p in StageAll(e, files, cwd).volume && StageAll(e, files, cwd).volume[p] == e[p]
  {
    if files != [] {
      var init := files[..|files| - 1];
      forall j | 0 <= j < |init| ensures Resolve(cwd, init[j].0) != p {
        assert init[j] == files[j];
      }
      StageAllElsewhere(e, init, cwd, p);
    }
  }

  /** A file stays a file through staging: a key may overwrite it, never turn it into a directory. */
  lemma {:induction false} StageAllKeepsFiles(e: Entries, files: seq<(string, string)>, cwd: string, p: string)
    requires p in e && e[p].File?
    ensures p in StageAll(e, files, cwd).volume && StageAll(e, files, cwd).volume[p].File?
  {
    if files != [] {
      StageAllKeepsFiles(e, files[..|files| - 1], cwd, p);
    }
  }

  /** Every file after staging was a file before it or is one of the keys. */
  lemma {:induction false} StageAllFileOrigin(e: Entries, files: seq<(string, string)>, cwd: string, p: string)
    ensures p in StageAll(e, files, cwd).volume && StageAll(e, files, cwd).volume[p].File? ==>
              (p in e && e[p].File?) || exists i :: 0 <= i < |files| && p == Resolve(cwd, files[i].0)
  {
    if files != [] && p in StageAll(e, files, cwd).volume && StageAll(e, files, cwd).volume[p].File? {
      var init := files[..|files| - 1];
      var before := StageAll(e, init, cwd);
      if before.ok && CanHoldFile(before.volume, Resolve(cwd, files[|files| - 1].0)) && p == Resolve(cwd, files[|files| - 1].0) {
      } else {
        assert p in before.volume && before.volume[p].File?;
        StageAllFileOrigin(e, init, cwd, p);
        if exists i :: 0 <= i < |init| && p == Resolve(cwd, init[i].0) {
          var i :| 0 <= i < |init| && p == Resolve(cwd, init[i].0);
          assert files[i] == init[i];
        }
      }
    }
  }

  /** Every directory after staging was a directory before it or lies above one of the keys. */
  lemma {:induction false} StageAllDirOrigin(e: Entries, files: seq<(string, string)>, cwd: string, p: string)
    ensures p in StageAll(e, files, cwd).volume && StageAll(e, files, cwd).volume[p].Dir? ==>
              (p in e && e[p].Dir?) || exists i :: 0 <= i < |files| && p in Ancestors(Resolve(cwd, files[i].0))
  {
    if files != [] && p in StageAll(e, files, cwd).volume && StageAll(e, files, cwd).volume[p].Dir? {
      var init := files[..|files| - 1];
      var before := StageAll(e, init, cwd);
      var last := Resolve(cwd, files[|files| - 1].0);
      if before.ok && CanHoldFile(before.volume, last) && p !in before.volume {
        assert p in Ancestors(last);
      } else {
        assert p in before.volume && before.volume[p].Dir?;
        StageAllDirOrigin(e, init, cwd, p);
        if exists i :: 0 <= i < |init| && p in Ancestors(Resolve(cwd, init[i].0)) {
          var i :| 0 <= i < |init| && p in Ancestors(Resolve(cwd, init[i].0));
          assert files[i] == init[i];
        }
      }
    }
  }

  /** After a staging that went through, every key is a file. */
  lemma {:induction false} StageAllHoldsKeys(e: Entries, files: seq<(string, string)>, cwd: string, i: nat)
    requires i < |files| && StageAll(e, files, cwd).ok
    ensures Resolve(cwd, files[i].0) in StageAll(e, files, cwd).volume
    ensures StageAll(e, files, cwd).volume[Resolve(cwd, files[i].0)].File?
  {
    var init := files[..|files| - 1];
    if i < |files| - 1 && Resolve(cwd, files[i].0) != Resolve(cwd, files[|files| - 1].0) {
      assert init[i] == files[i];
      StageAllHoldsKeys(e, init, cwd, i);
    }
  }

  /** A staging that goes through never puts a key at a path another key lies below. */
  lemma StageAllNoFileAboveFile(e: Entries, files: seq<(string, string)>, cwd: string, i: nat, j: nat)
    requires WellFormed(e) && i < |files| && j < |files| && StageAll(e, files, cwd).ok
    ensures Resolve(cwd, files[i].0) !in Ancestors(Resolve(cwd, files[j].0))
  {
    StageAllWellFormed(e, files, cwd);
    StageAllHoldsKeys(e, files, cwd, i);
    StageAllHoldsKeys(e, files, cwd, j);
  }

  /** Conversely, staging goes through when no key lies above another, no key is the
      root, and nothing already in the volume is in a key's way. */
  lemma {:induction false} StageAllSucceeds(e: Entries, files: seq<(string, string)>, cwd: string)
    requires forall i, j :: 0 <= i < |files| && 0 <= j < |files| ==>
               Resolve(cwd, files[i].0) !in Ancestors(Resolve(cwd, files[j].0))
    requires forall i :: 0 <= i < |files| ==> CanHoldFile(e, Resolve(cwd, files[i].0))
    ensures StageAll(e, files, cwd).ok
  {
    if files != [] {
      var init := files[..|files| - 1];
      forall i, j | 0 <= i < |init| && 0 <= j < |init|
        ensures Resolve(cwd, init[i].0) !in Ancestors(Resolve(cwd, init[j].0))
      {
        assert init[i] == files[i] && init[j] == files[j];
      }
      forall i | 0 <= i < |init| ensures CanHoldFile(e, Resolve(cwd, init[i].0)) {
        assert init[i] == files[i];
      }
      StageAllSucceeds(e, init, cwd);
      var before := StageAll(e, init, cwd).volume;
      var p := Resolve(cwd, files[|files| - 1].0);
      StageAllDirOrigin(e, init, cwd, p);
      forall q | q in Ancestors(p) && q in before ensures before[q].Dir? {
        StageAllFileOrigin(e, init, cwd, q);
      }
    }
  }

  /** The file-system calls a program makes, as the volume sees them. */
  datatype FsOp =
    | WriteFile(path: string, data: string)
    | AppendFile(path: string, data: string)
    | MakeDir(path: string)
    | Unlink(path: string)

  /** Every directory above `p` exists. */
  predicate DirsAbove(e: Entries, p: string) {
    forall q :: q in Ancestors(p) ==> q in e && e[q].Dir?
  }

  /** `p` can be written: its parent directories exist and it is not itself a directory. */
  predicate Writable(e: Entries, p: string) {
    p != "/" && DirsAbove(e, p) && !(p in e && e[p].Dir?)
  }

  /** The effect of one call. A call the file system refuses changes nothing: a
      write or append whose parent is missing or a file (ENOENT, ENOTDIR) or whose
      path is a directory (EISDIR), a `mkdir` of an existing path or below a
      missing parent, an `unlink` of a directory or a missing path. */
  function ApplyOp(e: Entries, op: FsOp): Entries {
    match op
    case WriteFile(p, d) => if Writable(e, p) then e[p := File(d)] else e
    case AppendFile(p, d) =>
      if !Writable(e, p) then e
      else if p in e then e[p := File(e[p].data + d)]
      else e[p := File(d)]
    case MakeDir(p) => if p != "/" && p !in e && DirsAbove(e, p) then e[p := Dir] else e
    case Unlink(p) => if p in e && e[p].File? then e - {p} else e
  }

  /** Every call keeps the volume well formed. */
  lemma ApplyOpWellFormed(e: Entries, op: FsOp)
    requires WellFormed(e)
    ensures WellFormed(ApplyOp(e, op))
  {
    var f := ApplyOp(e, op);
    forall r, q | r in f && q in Ancestors(r) ensures q in f && f[q].Dir? {
      AncestorsIff(r, q);
      if r !in e {
        assert r == op.path;
      }
    }
  }

  /** In a well-formed volume a path with anything below it is a directory, so
      writing or appending to it is refused. */
  lemma WriteOntoParentRefused(e: Entries, p: string, q: string, d: string)
    requires WellFormed(e) && |p| > 0 && q in e && StartsWith(q, p + "/")
    ensures p in e && e[p].Dir?
    ensures ApplyOp(e, WriteFile(p, d)) == e && ApplyOp(e, AppendFile(p, d)) == e
  {
    AncestorsIff(q, p);
  }

  /** A write that goes through is read back as written; one that is refused leaves
      the volume as it was. */
  lemma WriteThenRead(e: Entries, p: string, d: string)
    ensures Writable(e, p) ==> ReadText(ApplyOp(e, WriteFile(p, d)), p) == Some(d)
    ensures !Writable(e, p) ==> ApplyOp(e, WriteFile(p, d)) == e
  {
  }

  /** `readFileSync(path, 'utf8')`: the text of a file, or nothing where the read throws. */
  function ReadText(e: Entries, path: string): Option<string> {
    if path in e && e[path].File? then Some(e[path].data) else None
  }

  /** Some path lies strictly inside directory `d`. */
  predicate HasChildren(e: Entries, d: string) {
    exists q :: q in e && StartsWith(q, d + "/")
  }

  /** `toJSON` reports a path below the root when it is a file, or a directory with nothing inside. */
  predicate Reported(e: Entries, root: string, p: string)
    requires p in e
  {
    StartsWith(p, root + "/") && (e[p].File? || !HasChildren(e, p))
  }

  /** A reported node's value: a file's text, or `null` for an empty directory. */
  function NodeValue(n: Node): Option<string> {
    if n.File? then Some(n.data) else None
  }

  /** The part of `p` after `root + "/"`. */
  function Relative(root: string, p: string): string
    requires StartsWith(p, root + "/")
  {
    p[|root| + 1..]
  }

  /** `root + "/"` followed by the relative part gives the path back. */
  lemma RelativeJoin(root: string, p: string)
    requires StartsWith(p, root + "/")
    ensures p == root + "/" + Relative(root, p)
  {
    assert p == p[..|root| + 1] + p[|root| + 1..];
  }

  /** `toJSON(root, undefined, true)` looked at only over the paths in `keys`. */
  function ExtractOver(e: Entries, root: string, keys: set<string>): map<string, Option<string>>
    requires keys <= e.Keys
  {
    var rel := set p | p in keys && Reported(e, root, p) :: Relative(root, p);
    assert forall k :: k in rel ==> root + "/" + k in e by {
      forall k | k in rel ensures root + "/" + k in e {
        var p :| p in keys && Reported(e, root, p) && Relative(root, p) == k;
        RelativeJoin(root, p);
      }
    }
    map k | k in rel :: NodeValue(e[root + "/" + k])
  }

  /** Visiting one more path adds its entry when it is reported and nothing otherwise. */
  lemma ExtractOverAdd(e: Entries, root: string, keys: set<string>, p: string)
    requires keys <= e.Keys && p in e
    ensures ExtractOver(e, root, keys + {p}) ==
              if Reported(e, root, p) then ExtractOver(e, root, keys)[Relative(root, p) := NodeValue(e[p])]
              else ExtractOver(e, root, keys)
  {
    var before, after := ExtractOver(e, root, keys), ExtractOver(e, root, keys + {p});
    if Reported(e, root, p) {
      RelativeJoin(root, p);
      var expected := before[Relative(root, p) := NodeValue(e[p])];
      assert after.Keys == expected.Keys;
      forall k | k in after ensures after[k] == expected[k] { }
    } else {
      assert after.Keys == before.Keys;
    }
  }

  /** `toJSON(root, undefined, true)`: the subtree below `root`, keyed relative to it. */
  function Extract(e: Entries, root: string): map<string, Option<string>> {
    ExtractOver(e, root, e.Keys)
  }

  /** A key is in the extracted subtree exactly when `root/key` is a reported path,
      and it carries that path's value. */
  lemma ExtractCharacterised(e: Entries, root: string, k: string)
    ensures k in Extract(e, root) <==> (root + "/" + k) in e && Reported(e, root, root + "/" + k)
    ensures k in Extract(e, root) ==> Extract(e, root)[k] == NodeValue(e[root + "/" + k])
  {
    var p := root + "/" + k;
    assert p[..|root| + 1] == root + "/";
    assert Relative(root, p) == k;
    if k in Extract(e, root) {
      var q :| q in e && Reported(e, root, q) && Relative(root, q) == k;
      RelativeJoin(root, q);
    }
  }

  /** A subtree with nothing in it extracts to the empty map. */
  lemma ExtractEmpty(e: Entries, root: string)
    requires forall p :: p in e ==> !StartsWith(p, root + "/")
    ensures Extract(e, root) == map[]
  {
    forall k ensures k !in Extract(e, root) {
      ExtractCharacterised(e, root, k);
      var p := root + "/" + k;
      assert StartsWith(p, root + "/") by {
        assert p[..|root| + 1] == root + "/";
      }
    }
  }

  /** Writing one file below an otherwise empty subtree makes it the only entry extracted. */
  lemma ExtractSingle(e: Entries, root: string, rel: string, text: string)
    requires forall p :: p in e ==> !StartsWith(p, root + "/")
    ensures Extract(e[root + "/" + rel := File(text)], root) == map[rel := Some(text)]
  {
    var f := e[root + "/" + rel := File(text)];
    forall k ensures k in Extract(f, root) <==> k == rel {
      ExtractCharacterised(f, root, k);
      var p := root + "/" + k;
      assert p[..|root| + 1] == root + "/";
      if p == root + "/" + rel {
        assert k == p[|root| + 1..] == rel;
      }
    }
    ExtractCharacterised(f, root, rel);
  }

  /** What lies outside the subtree never shows in the extraction: two volumes that
      agree below `root + "/"` extract to the same map. */
  lemma ExtractOnlySeesSubtree(e: Entries, f: Entries, root: string)
    requires forall p :: StartsWith(p, root + "/") ==> (p in e <==> p in f)
    requires forall p :: StartsWith(p, root + "/") && p in e ==> e[p] == f[p]
    ensures Extract(e, root) == Extract(f, root)
  {
    forall p | p in e && StartsWith(p, root + "/")
      ensures HasChildren(e, p) <==> HasChildren(f, p)
    {
      if HasChildren(e, p) {
        var q :| q in e && StartsWith(q, p + "/");
        StartsWithTrans(q, p, root);
      }
      if HasChildren(f, p) {
        var q :| q in f && StartsWith(q, p + "/");
        StartsWithTrans(q, p, root);
      }
    }
    forall k ensures k in Extract(e, root) <==> k in Extract(f, root) {
      ExtractCharacterised(e, root, k);
      ExtractCharacterised(f, root, k);
    }
    forall k | k in Extract(e, root) ensures Extract(e, root)[k] == Extract(f, root)[k] {
      ExtractCharacterised(e, root, k);
      ExtractCharacterised(f, root, k);
    }
  }

  /** The file system a WasmFs exposes, updated in place. */
  class Volume {
    var entries: Entries

    ghost predicate Valid()
      reads this
    {
      WellFormed(entries)
    }

    /** `new WasmFs()`. */
    constructor ()
      ensures entries == FreshEntries() && Valid()
    {
      entries := FreshEntries();
      FreshWellFormed();
    }

    /** `volume.fromJSON(files, cwd)`: write each entry in key order, making its
        parent directories first; `ok` is false where a key throws, and the keys
        after it are not written. */
    method FromJSON(files: seq<(string, string)>, cwd: string) returns (ok: bool)
      requires Valid()
      modifies this
      ensures Loaded(entries, ok) == StageAll(old(entries), files, cwd)
      ensures Valid()
    {
      ok := true;
      var i := 0;
      while i < |files|
        invariant 0 <= i <= |files|
        invariant StageAll(old(entries), files[..i], cwd) == Loaded(entries, true)
        invariant WellFormed(entries)
      {
        var (name, data) := files[i];
        var path := Resolve(cwd, name);
        assert files[..i + 1][..i] == files[..i];
        if !CanHoldFile(entries, path) {
          StageAllFailStays(old(entries), files, cwd, i + 1);
          ok := false;
          return;
        }
        PutFileWellFormed(entries, path, data);
        entries := MakeParents(entries, path)[path := File(data)];
        i := i + 1;
      }
      assert files[..i] == files;
    }

    /** One file-system call made by the running program. */
    method Apply(op: FsOp)
      requires Valid()
      modifies this
      ensures entries == ApplyOp(old(entries), op) && Valid()
    {
      ApplyOpWellFormed(entries, op);
      entries := ApplyOp(entries, op);
    }

    /** `fs.readFileSync(path, 'utf8')`; `None` where the call throws. */
    method ReadFileSync(path: string) returns (text: Option<string>)
      ensures text.Some? <==> path in entries && entries[path].File?
      ensures text.Some? ==> entries[path] == File(text.value)
    {
      if path in entries && entries[path].File? {
        text := Some(entries[path].data);
      } else {
        text := None;
      }
    }

    /** `volume.toJSON(root, undefined, true)`: visit every node once and report
        the files and empty directories below `root`, keyed relative to it. */
    method ToJSON(root: string) returns (out: map<string, Option<string>>)
      ensures forall k :: k in out <==> (root + "/" + k) in entries && Reported(entries, root, root + "/" + k)
      ensures forall k :: k in out ==> out[k] == NodeValue(entries[root + "/" + k])
    {
      out := map[];
      var todo := entries.Keys;
      ghost var done: set<string> := {};
      while todo != {}
        invariant todo + done == entries.Keys && todo !! done
        invariant out == ExtractOver(entries, root, done)
        decreases todo
      {
        var p :| p in todo;
        if StartsWith(p, root + "/") && (entries[p].File? || !HasChildren(entries, p)) {
          out := out[Relative(root, p) := NodeValue(entries[p])];
        }
        ExtractOverAdd(entries, root, done, p);
        todo := todo - {p};
        done := done + {p};
      }
      forall k ensures k in out <==> (root + "/" + k) in entries && Reported(entries, root, root + "/" + k) {
        ExtractCharacterised(entries, root, k);
      }
      forall k | k in out ensures out[k] == NodeValue(entries[root + "/" + k]) {
        ExtractCharacterised(entries, root, k);
      }
    }
  }
}
