/** Composition patches: resolving pieces against a directory, writing, and resolving again. */
module ComposeWrite {
  import opened Resources
  import opened Paths
  import opened EnvText

  datatype Piece = Piece(kind: string, name: string, content: string)

  datatype FileOp = FileOp(path: string, content: string, isNew: bool, identical: bool)

  datatype EnvAppend = EnvAppend(key: string, value: string, comment: string, pending: bool)

  datatype Patch = Patch(command: string, dir: string, files: seq<FileOp>, envAppends: seq<EnvAppend>)

  /** File contents by cleaned path. */
  type Files = map<string, string>

  predicate HasChanges(p: Patch) {
    || (exists i :: 0 <= i < |p.files| && (p.files[i].isNew || !p.files[i].identical))
    || (exists i :: 0 <= i < |p.envAppends| && p.envAppends[i].pending)
  }

  // ---------------------------------------------------------------- destinations

  const PREFIXES: map<string, string> := map[
    "Provider" := "provider", "Source" := "source", "EventStream" := "eventstream", "Binding" := "binding",
    "Dataset" := "dataset", "SecretReference" := "secret", "Connection" := "connection", "Catalog" := "catalog"]

  function LowerChar(c: char): char {
    if 'A' <= c <= 'Z' then c + ('a' - 'A') else c
  }

  function ToLower(s: string): string {
    seq(|s|, i requires 0 <= i < |s| => LowerChar(s[i]))
  }

  function FilePath(kind: string, name: string): string {
    (if kind in PREFIXES then PREFIXES[kind] else ToLower(kind)) + "-" + name + ".yaml"
  }

  /** One file name per known kind and name. */
  lemma FilePathInjective(a: Piece, b: Piece)
    requires a.kind in PREFIXES && b.kind in PREFIXES
    requires FilePath(a.kind, a.name) == FilePath(b.kind, b.name)
    ensures a.kind == b.kind && a.name == b.name
  {
    var p, q := PREFIXES[a.kind], PREFIXES[b.kind];
    assert FilePath(a.kind, a.name) == p + ['-'] + (a.name + ".yaml");
    assert FilePath(b.kind, b.name) == q + ['-'] + (b.name + ".yaml");
    SplitUnique(p, q, a.name + ".yaml", b.name + ".yaml", '-');
    assert a.name == (a.name + ".yaml")[..|a.name|] && b.name == (b.name + ".yaml")[..|b.name|];
  }

  /** Where a piece goes on disk: names are not validated, so a separator in one is cleaned away. */
  function Destination(dir: string, p: Piece): string {
    Join(dir, FilePath(p.kind, p.name))
  }

  function EnvPath(dir: string): string {
    Join(dir, ".env")
  }

  /** No piece, whatever its name, goes to the .env file. */
  lemma NeverEnv(dir: string, p: Piece)
    ensures Destination(dir, p) != EnvPath(dir)
  {
    var stem := (if p.kind in PREFIXES then PREFIXES[p.kind] else ToLower(p.kind)) + "-" + p.name;
    assert FilePath(p.kind, p.name) == stem + ".yaml";
    var x := JoinEnds(dir, stem, ".yaml");
    assert "" + ".env" == ".env";
    var y := JoinEnds(dir, "", ".env");
    assert (x + ".yaml")[|x| + 4] == 'l' && (y + ".env")[|y| + 3] == 'v';
  }

  /** Pieces that share a file have the same content. */
  ghost predicate Consistent(dir: string, pieces: seq<Piece>) {
    forall i, j :: 0 <= i < |pieces| && 0 <= j < |pieces| && Destination(dir, pieces[i]) == Destination(dir, pieces[j]) ==>
      pieces[i].content == pieces[j].content
  }

  lemma PlainDestination(dir: string, p: Piece)
    requires p.kind in PREFIXES && FreeOf(p.name, '/')
    ensures Destination(dir, p) == DirectoryPrefix(dir) + FilePath(p.kind, p.name)
  {
    JoinPlain(dir, FilePath(p.kind, p.name));
  }

  lemma PlainPiecesApart(dir: string, a: Piece, b: Piece)
    requires a.kind in PREFIXES && FreeOf(a.name, '/') && b.kind in PREFIXES && FreeOf(b.name, '/')
    requires Destination(dir, a) == Destination(dir, b)
    ensures a.kind == b.kind && a.name == b.name
  {
    PlainDestination(dir, a);
    PlainDestination(dir, b);
    var p, x, y := DirectoryPrefix(dir), FilePath(a.kind, a.name), FilePath(b.kind, b.name);
    assert x == (p + x)[|p|..] && y == (p + y)[|p|..];
    FilePathInjective(a, b);
  }

  ghost predicate PlainPiece(p: Piece) {
    p.kind in PREFIXES && FreeOf(p.name, '/')
  }

  /** Pieces of known kinds, with separator-free names and no kind and name twice, never share a file. */
  lemma PlainNamesAreConsistent(dir: string, pieces: seq<Piece>)
    requires forall i :: 0 <= i < |pieces| ==> PlainPiece(pieces[i])
    requires forall i, j :: 0 <= i < j < |pieces| ==> pieces[i].kind != pieces[j].kind || pieces[i].name != pieces[j].name
    ensures Consistent(dir, pieces)
  {
    forall i, j | 0 <= i < |pieces| && 0 <= j < |pieces| && Destination(dir, pieces[i]) == Destination(dir, pieces[j])
      ensures pieces[i].content == pieces[j].content
    {
      PlainPiecesApart(dir, pieces[i], pieces[j]);
    }
  }

  const DATABASE_FILE := "provider-n-db.yaml"

  lemma DatabaseFile(content: string)
    ensures Destination("", Piece("Provider", "n-db", content)) == DATABASE_FILE
  {
    assert FilePath("Provider", "n-db") == DATABASE_FILE;
    JoinPlain("", DATABASE_FILE);
  }

  lemma BrokerPath()
    ensures FilePath("Provider", "q/../provider-n-db") == "provider-q" + "/../" + DATABASE_FILE
  {
    assert PREFIXES["Provider"] == "provider";
  }

  lemma BrokerFile(content: string)
    ensures Destination("", Piece("Provider", "q/../provider-n-db", content)) == DATABASE_FILE
  {
    BrokerPath();
    ParentIsTakenBack("provider-q", DATABASE_FILE);
  }

  /**
   * With a separator in a name, two Providers of one pipeline share a file: the database named after
   * `--name n`, and a broker called `q/../provider-n-db`.
   */
  lemma SeparatorsShareAFile(database: Piece, broker: Piece)
    requires database.kind == broker.kind == "Provider" && database.name == "n-db" && broker.name == "q/../provider-n-db"
    ensures Consistent("", [database, broker]) <==> database.content == broker.content
  {
    DatabaseFile(database.content);
    BrokerFile(broker.content);
    var pieces := [database, broker];
    assert Destination("", pieces[0]) == Destination("", pieces[1]);
  }

  // ---------------------------------------------------------------- resolving

  /** Putting the piece in place would change a file that is there. */
  predicate Overwrites(files: Files, dir: string, p: Piece) {
    Destination(dir, p) in files && files[Destination(dir, p)] != p.content
  }

  /** The set already has this kind and name, in some other file. */
  predicate Duplicates(files: Files, taken: set<(string, string)>, dir: string, p: Piece) {
    Destination(dir, p) !in files && (p.kind, p.name) in taken
  }

  predicate Collides(files: Files, taken: set<(string, string)>, dir: string, p: Piece) {
    Overwrites(files, dir, p) || Duplicates(files, taken, dir, p)
  }

  /** The directory with the piece in place. */
  function InPlace(files: Files, dir: string, p: Piece): Files {
    files[Destination(dir, p) := p.content]
  }

  /** op puts p in place: new when that adds a file, identical when it changes nothing. */
  ghost predicate Places(files: Files, dir: string, p: Piece, op: FileOp) {
    && op.path == FilePath(p.kind, p.name) && op.content == p.content
    && (op.isNew <==> InPlace(files, dir, p) != files)
    && (op.identical <==> InPlace(files, dir, p) == files)
  }

  function EnvData(files: Files, dir: string): string {
    if EnvPath(dir) in files then files[EnvPath(dir)] else ""
  }

  ghost predicate PatchOf(files: Files, taken: set<(string, string)>, pieces: seq<Piece>, appends: seq<EnvAppend>, patch: Patch) {
    && |patch.files| == |pieces|
    && (forall i :: 0 <= i < |pieces| ==>
          !Collides(files, taken, patch.dir, pieces[i]) && Places(files, patch.dir, pieces[i], patch.files[i]))
    && |patch.envAppends| == |appends|
    && (forall i :: 0 <= i < |appends| ==>
          patch.envAppends[i] == appends[i].(pending := patch.envAppends[i].pending)
          && (patch.envAppends[i].pending <==> !Assigns(EnvData(files, patch.dir), appends[i].key)))
  }

  /** The lines that introduce and assign one key, if it is pending. */
  function AppendText(a: EnvAppend): string {
    if !a.pending then ""
    else (if a.comment != "" then "# " + a.comment + "\n" else "") + a.key + "=" + a.value + "\n"
  }

  function Assignments(appends: seq<EnvAppend>): string {
    if appends == [] then "" else AppendText(appends[0]) + Assignments(appends[1..])
  }

  lemma {:induction false} AssignmentsSnoc(appends: seq<EnvAppend>, a: EnvAppend)
    ensures Assignments(appends + [a]) == Assignments(appends) + AppendText(a)
  {
    if appends == [] {
      assert ([a])[1..] == [];
      assert appends + [a] == [a];
    } else {
      assert (appends + [a])[1..] == appends[1..] + [a];
      AssignmentsSnoc(appends[1..], a);
    }
  }

  function Header(command: string): string {
    "# appended by platformctl " + command + "; fill in real values (docs/planning/08 E9)"
  }

  function EnvBlock(command: string, appends: seq<EnvAppend>): string {
    "\n" + Header(command) + "\n" + Assignments(appends)
  }

  function WithNewFiles(files: Files, dir: string, ops: seq<FileOp>): Files {
    if ops == [] then files
    else
      var before := WithNewFiles(files, dir, ops[..|ops| - 1]);
      var op := ops[|ops| - 1];
      if op.isNew then before[Join(dir, op.path) := op.content] else before
  }

  ghost predicate AnyPending(appends: seq<EnvAppend>) {
    exists i :: 0 <= i < |appends| && appends[i].pending
  }

  /** The directory after a patch is written. */
  ghost function Applied(files: Files, patch: Patch): Files {
    var written := WithNewFiles(files, patch.dir, patch.files);
    if AnyPending(patch.envAppends)
    then written[EnvPath(patch.dir) := EnvData(written, patch.dir) + EnvBlock(patch.command, patch.envAppends)]
    else written
  }

  class Directory {
    const dir: string
    var files: Files

    constructor (dir: string, files: Files)
      ensures this.dir == dir && this.files == files
    {
      this.dir := dir;
      this.files := files;
    }

    /**
     * Refuses a piece exactly when placing it would overwrite a file or duplicate a resource;
     * an accepted piece can be put in place without changing any file that is there.
     */
    method ResolveFile(taken: set<(string, string)>, p: Piece) returns (op: Option<FileOp>)
      ensures op.None? <==> Collides(files, taken, dir, p)
      ensures op.Some? ==> Places(files, dir, p, op.value)
      ensures op.Some? ==> forall path :: path in files ==> InPlace(files, dir, p)[path] == files[path]
      ensures op.Some? && op.value.isNew ==> Destination(dir, p) !in files && (p.kind, p.name) !in taken
    {
      var path := FilePath(p.kind, p.name);
      var full := Join(dir, path);
      if full in files {
        if files[full] == p.content {
          return Some(FileOp(path, p.content, false, true));
        }
        return None;
      }
      if (p.kind, p.name) in taken {
        return None;
      }
      assert full in InPlace(files, dir, p) && full !in files;
      op := Some(FileOp(path, p.content, true, false));
    }

    method ResolveEnvAppends(appends: seq<EnvAppend>) returns (out: seq<EnvAppend>)
      ensures |out| == |appends|
      ensures forall i :: 0 <= i < |appends| ==>
                out[i] == appends[i].(pending := out[i].pending)
                && (out[i].pending <==> !Assigns(EnvData(files, dir), appends[i].key))
    {
      var existing := ReadEnvKeys(EnvData(files, dir));
      out := [];
      while |out| < |appends|
        invariant |out| <= |appends|
        invariant forall i :: 0 <= i < |out| ==>
                    out[i] == appends[i].(pending := out[i].pending)
                    && (out[i].pending <==> !Assigns(EnvData(files, dir), appends[i].key))
      {
        var a := appends[|out|];
        out := out + [a.(pending := a.key !in existing)];
      }
    }

    /** Plans a patch; fails exactly when some piece collides. */
    method Resolve(command: string, taken: set<(string, string)>, pieces: seq<Piece>, appends: seq<EnvAppend>)
      returns (patch: Option<Patch>)
      ensures patch.Some? <==> forall i :: 0 <= i < |pieces| ==> !Collides(files, taken, dir, pieces[i])
      ensures patch.Some? ==>
                PatchOf(files, taken, pieces, appends, patch.value) && patch.value.command == command && patch.value.dir == dir
    {
      var ops: seq<FileOp> := [];
      while |ops| < |pieces|
        invariant |ops| <= |pieces|
        invariant forall i :: 0 <= i < |ops| ==>
                    !Collides(files, taken, dir, pieces[i]) && Places(files, dir, pieces[i], ops[i])
      {
        var op := ResolveFile(taken, pieces[|ops|]);
        if op.None? {
          return None;
        }
        ops := ops + [op.value];
      }
      var env := ResolveEnvAppends(appends);
      patch := Some(Patch(command, dir, ops, env));
    }

    method WriteFiles(ops: seq<FileOp>)
      modifies this
      ensures files == WithNewFiles(old(files), dir, ops)
    {
      var i := 0;
      while i < |ops|
        invariant 0 <= i <= |ops|
        invariant files == WithNewFiles(old(files), dir, ops[..i])
      {
        assert ops[..i + 1][..i] == ops[..i];
        if ops[i].isNew {
          files := files[Join(dir, ops[i].path) := ops[i].content];
        }
        i := i + 1;
      }
      assert ops[..i] == ops;
    }

    /** The text of all pending appends, and whether there are any. */
    method RenderAppends(appends: seq<EnvAppend>) returns (text: string, any: bool)
      ensures text == Assignments(appends) && (any <==> AnyPending(appends))
    {
      text, any := "", false;
      var i := 0;
      while i < |appends|
        invariant 0 <= i <= |appends|
        invariant any <==> exists j :: 0 <= j < i && appends[j].pending
        invariant text == Assignments(appends[..i])
      {
        var a := appends[i];
        AssignmentsSnoc(appends[..i], a);
        assert appends[..i + 1] == appends[..i] + [a];
        if a.pending {
          any := true;
          text := text + ((if a.comment != "" then "# " + a.comment + "\n" else "") + a.key + "=" + a.value + "\n");
        }
        i := i + 1;
      }
      assert appends[..i] == appends;
    }

    method Write(patch: Patch)
      requires patch.dir == dir
      modifies this
      ensures files == Applied(old(files), patch)
    {
      WriteFiles(patch.files);
      var text, any := RenderAppends(patch.envAppends);
      if any {
        files := files[EnvPath(dir) := EnvData(files, dir) + ("\n" + Header(patch.command) + "\n" + text)];
      }
    }
  }

  // ---------------------------------------------------------------- nothing is overwritten

  ghost predicate PlacesAll(files: Files, taken: set<(string, string)>, dir: string, pieces: seq<Piece>, ops: seq<FileOp>) {
    && |ops| == |pieces|
    && forall i :: 0 <= i < |pieces| ==> !Collides(files, taken, dir, pieces[i]) && Places(files, dir, pieces[i], ops[i])
  }

  /** A piece is new exactly when nothing is at its destination, and an old one is there byte for byte. */
  lemma NewIffAbsent(files: Files, taken: set<(string, string)>, dir: string, p: Piece, op: FileOp)
    requires !Collides(files, taken, dir, p) && Places(files, dir, p, op)
    ensures op.isNew <==> Destination(dir, p) !in files
    ensures !op.isNew ==> files[Destination(dir, p)] == p.content
  {
    if Destination(dir, p) in files {
      assert InPlace(files, dir, p) == files;
    } else {
      assert Destination(dir, p) in InPlace(files, dir, p);
    }
  }

  /** A destination and the content wanted there. */
  type Slot = (string, string)

  function Slots(dir: string, pieces: seq<Piece>): seq<Slot> {
    seq(|pieces|, i requires 0 <= i < |pieces| => (Destination(dir, pieces[i]), pieces[i].content))
  }

  /** The file at path holds what one of the slots wants there. */
  ghost predicate HoldsOneOf(files: Files, slots: seq<Slot>, path: string) {
    exists j :: 0 <= j < |slots| && slots[j].0 == path && path in files && files[path] == slots[j].1
  }

  /** Files that were there keep their content; every slot's file is filled by one of its slots, and nothing else is added. */
  ghost predicate Filled(files: Files, after: Files, slots: seq<Slot>) {
    && (forall path :: path in files ==> path in after && after[path] == files[path])
    && (forall path :: path in after && path !in files ==> HoldsOneOf(after, slots, path))
    && (forall i :: 0 <= i < |slots| ==> HoldsOneOf(after, slots, slots[i].0))
  }

  lemma HoldsOneMore(before: Files, after: Files, slots: seq<Slot>, slot: Slot, path: string)
    requires HoldsOneOf(before, slots, path) && path in after && after[path] == before[path]
    ensures HoldsOneOf(after, slots + [slot], path)
  {
    var j :| 0 <= j < |slots| && slots[j].0 == path && path in before && before[path] == slots[j].1;
    assert (slots + [slot])[j] == slots[j];
  }

  lemma FillOneMore(files: Files, before: Files, after: Files, slots: seq<Slot>, slot: Slot)
    requires Filled(files, before, slots)
    requires if slot.0 in files then slot.1 == files[slot.0] && after == before else after == before[slot.0 := slot.1]
    ensures Filled(files, after, slots + [slot])
  {
    var all := slots + [slot];
    assert all[|slots|] == slot;
    assert HoldsOneOf(after, all, slot.0);
    forall path | path != slot.0 && HoldsOneOf(before, slots, path) ensures HoldsOneOf(after, all, path) {
      HoldsOneMore(before, after, slots, slot, path);
    }
  }

  lemma PlaceNext(files: Files, taken: set<(string, string)>, dir: string, p: Piece, op: FileOp, before: Files, slots: seq<Slot>)
    requires !Collides(files, taken, dir, p) && Places(files, dir, p, op) && Filled(files, before, slots)
    ensures Filled(files, if op.isNew then before[Join(dir, op.path) := op.content] else before,
                   slots + [(Destination(dir, p), p.content)])
  {
    NewIffAbsent(files, taken, dir, p, op);
    var after := if op.isNew then before[Join(dir, op.path) := op.content] else before;
    FillOneMore(files, before, after, slots, (Destination(dir, p), p.content));
  }

  lemma SlotsSnoc(dir: string, pieces: seq<Piece>, p: Piece)
    ensures Slots(dir, pieces + [p]) == Slots(dir, pieces) + [(Destination(dir, p), p.content)]
  {
  }

  lemma PlaceLast(files: Files, taken: set<(string, string)>, dir: string, pieces: seq<Piece>, ops: seq<FileOp>, n: nat)
    requires PlacesAll(files, taken, dir, pieces, ops) && |pieces| == n + 1
    requires Filled(files, WithNewFiles(files, dir, ops[..n]), Slots(dir, pieces[..n]))
    ensures Filled(files, WithNewFiles(files, dir, ops), Slots(dir, pieces))
  {
    PlaceNext(files, taken, dir, pieces[n], ops[n], WithNewFiles(files, dir, ops[..n]), Slots(dir, pieces[..n]));
    SlotsSnoc(dir, pieces[..n], pieces[n]);
    assert pieces == pieces[..n] + [pieces[n]];
  }

  lemma {:induction false} NewFilesFill(files: Files, taken: set<(string, string)>, dir: string, pieces: seq<Piece>, ops: seq<FileOp>)
    requires PlacesAll(files, taken, dir, pieces, ops)
    ensures Filled(files, WithNewFiles(files, dir, ops), Slots(dir, pieces))
    decreases |pieces|
  {
    if pieces == [] {
      assert ops == [];
    } else {
      var n := |pieces| - 1;
      NewFilesFill(files, taken, dir, pieces[..n], ops[..n]);
      PlaceLast(files, taken, dir, pieces, ops, n);
    }
  }

  /** Writing a patch, whatever its names, changes no file that was there, and only appends to .env. */
  lemma WriteNeverOverwrites(files: Files, taken: set<(string, string)>, pieces: seq<Piece>, appends: seq<EnvAppend>, patch: Patch)
    requires PatchOf(files, taken, pieces, appends, patch)
    ensures forall path :: path in files && path != EnvPath(patch.dir) ==>
              path in Applied(files, patch) && Applied(files, patch)[path] == files[path]
    ensures EnvData(files, patch.dir) <= EnvData(Applied(files, patch), patch.dir)
    ensures forall i :: 0 <= i < |pieces| ==>
              HoldsOneOf(Applied(files, patch), Slots(patch.dir, pieces), Destination(patch.dir, pieces[i]))
  {
    NewFilesFill(files, taken, patch.dir, pieces, patch.files);
    EnvUntouched(files, taken, pieces, appends, patch);
    forall i | 0 <= i < |pieces|
      ensures HoldsOneOf(Applied(files, patch), Slots(patch.dir, pieces), Destination(patch.dir, pieces[i]))
    {
      PieceInPlace(files, pieces, patch, i);
    }
  }

  lemma PieceInPlace(files: Files, pieces: seq<Piece>, patch: Patch, i: nat)
    requires Filled(files, WithNewFiles(files, patch.dir, patch.files), Slots(patch.dir, pieces)) && i < |pieces|
    ensures HoldsOneOf(Applied(files, patch), Slots(patch.dir, pieces), Destination(patch.dir, pieces[i]))
  {
    NeverEnv(patch.dir, pieces[i]);
    var slots := Slots(patch.dir, pieces);
    assert slots[i].0 == Destination(patch.dir, pieces[i]);
    assert HoldsOneOf(WithNewFiles(files, patch.dir, patch.files), slots, slots[i].0);
  }

  lemma EnvUntouched(files: Files, taken: set<(string, string)>, pieces: seq<Piece>, appends: seq<EnvAppend>, patch: Patch)
    requires PatchOf(files, taken, pieces, appends, patch)
    ensures EnvData(WithNewFiles(files, patch.dir, patch.files), patch.dir) == EnvData(files, patch.dir)
  {
    NewFilesFill(files, taken, patch.dir, pieces, patch.files);
    forall i | 0 <= i < |pieces| ensures Slots(patch.dir, pieces)[i].0 != EnvPath(patch.dir) {
      NeverEnv(patch.dir, pieces[i]);
    }
  }

  // ---------------------------------------------------------------- doing it again

  lemma AppendTextKeepsLines(a: EnvAppend, rest: string, k: string)
    requires a.pending
    ensures Assigns(a.key + "=" + a.value, k) || Assigns(rest, k) ==> Assigns(AppendText(a) + rest, k)
  {
    var line := a.key + "=" + a.value;
    AssignsJoin(line, rest, k);
    if a.comment == "" {
      assert AppendText(a) + rest == line + "\n" + rest;
    } else {
      var more := line + "\n" + rest;
      assert AppendText(a) + rest == ("# " + a.comment) + "\n" + more;
      AssignsJoin("# " + a.comment, more, k);
    }
  }

  lemma {:induction false} PendingKeyIsAssigned(appends: seq<EnvAppend>, i: nat)
    requires i < |appends| && appends[i].pending && ReadsBack(appends[i].key)
    ensures Assigns(Assignments(appends), appends[i].key)
  {
    var a, rest := appends[0], Assignments(appends[1..]);
    if i > 0 {
      PendingKeyIsAssigned(appends[1..], i - 1);
    } else {
      AssignmentIsRead(a.key, a.value);
    }
    if a.pending {
      AppendTextKeepsLines(a, rest, appends[i].key);
    } else {
      assert Assignments(appends) == rest;
    }
  }

  /** The appended block keeps what was assigned and adds the pending keys that can be read. */
  lemma BlockIsRead(env: string, command: string, appends: seq<EnvAppend>, i: nat)
    requires i < |appends| && ReadsBack(appends[i].key)
    requires appends[i].pending || Assigns(env, appends[i].key)
    ensures Assigns(env + EnvBlock(command, appends), appends[i].key)
  {
    var k, block := appends[i].key, Assignments(appends);
    var tail := Header(command) + "\n" + block;
    assert env + EnvBlock(command, appends) == env + "\n" + tail;
    AssignsJoin(env, tail, k);
    AssignsJoin(Header(command), block, k);
    if appends[i].pending {
      PendingKeyIsAssigned(appends, i);
    }
  }

  /** After writing, a proposed key is found in .env exactly when it can be read back at all. */
  lemma EnvKeyFoundAgain(files: Files, taken: set<(string, string)>, pieces: seq<Piece>, appends: seq<EnvAppend>, patch: Patch, i: nat)
    requires PatchOf(files, taken, pieces, appends, patch) && i < |appends|
    ensures Assigns(EnvData(Applied(files, patch), patch.dir), appends[i].key) <==> ReadsBack(appends[i].key)
  {
    var k := appends[i].key;
    EnvUntouched(files, taken, pieces, appends, patch);
    assert patch.envAppends[i].key == k;
    if Assigns(EnvData(Applied(files, patch), patch.dir), k) {
      OnlyReadableKeysAreRead(EnvData(Applied(files, patch), patch.dir), k);
    }
    if ReadsBack(k) && AnyPending(patch.envAppends) {
      BlockIsRead(EnvData(files, patch.dir), patch.command, patch.envAppends, i);
    }
  }

  /** After writing, no piece collides exactly when no two pieces wanted different content in one file. */
  lemma NoCollisionAgain(files: Files, taken: set<(string, string)>, taken': set<(string, string)>, pieces: seq<Piece>, appends: seq<EnvAppend>, patch: Patch)
    requires PatchOf(files, taken, pieces, appends, patch)
    ensures (forall i :: 0 <= i < |pieces| ==> !Collides(Applied(files, patch), taken', patch.dir, pieces[i]))
            <==> Consistent(patch.dir, pieces)
    ensures forall i :: 0 <= i < |pieces| ==> Destination(patch.dir, pieces[i]) in Applied(files, patch)
  {
    WriteNeverOverwrites(files, taken, pieces, appends, patch);
    var after := Applied(files, patch);
    forall i | 0 <= i < |pieces| ensures Destination(patch.dir, pieces[i]) in after {
      assert HoldsOneOf(after, Slots(patch.dir, pieces), Destination(patch.dir, pieces[i]));
    }
  }

  /**
   * Resolving the same pieces and keys after a write, whatever the reloaded set contains: no piece
   * collides exactly when no two pieces wanted different content in one file, and then nothing
   * changes exactly when every proposed key can be read back from .env.
   */
  lemma ComposeIdempotent(files: Files, taken: set<(string, string)>, taken': set<(string, string)>, pieces: seq<Piece>, appends: seq<EnvAppend>, patch: Patch, again: Patch)
    requires PatchOf(files, taken, pieces, appends, patch) && again.dir == patch.dir
    ensures (forall i :: 0 <= i < |pieces| ==> !Collides(Applied(files, patch), taken', patch.dir, pieces[i]))
            <==> Consistent(patch.dir, pieces)
    ensures PatchOf(Applied(files, patch), taken', pieces, appends, again) ==>
              (!HasChanges(again) <==> forall i :: 0 <= i < |appends| ==> ReadsBack(appends[i].key))
  {
    NoCollisionAgain(files, taken, taken', pieces, appends, patch);
    if PatchOf(Applied(files, patch), taken', pieces, appends, again) {
      forall i | 0 <= i < |pieces| ensures !again.files[i].isNew && again.files[i].identical {
        NewIffAbsent(Applied(files, patch), taken', patch.dir, pieces[i], again.files[i]);
      }
      forall i | 0 <= i < |appends| ensures again.envAppends[i].pending <==> !ReadsBack(appends[i].key) {
        EnvKeyFoundAgain(files, taken, pieces, appends, patch, i);
      }
    }
  }

  // ---------------------------------------------------------------- the keys compose proposes

  function UpperChar(c: char): char {
    if c == '-' then '_' else if 'a' <= c <= 'z' then c - ('a' - 'A') else c
  }

  function EnvPart(s: string): string {
    seq(|s|, i requires 0 <= i < |s| => UpperChar(s[i]))
  }

  /** The variable the env backend reads for one key of a secret reference. */
  function EnvVarName(ref: string, key: string): string {
    "DATASCAPE_SECRET_" + EnvPart(ref) + "_" + EnvPart(key)
  }

  /** The keys proposed for a secret of a username and a password. */
  function SecretAppends(ref: string, user: string): seq<EnvAppend> {
    [EnvAppend(EnvVarName(ref, "username"), user, "", false), EnvAppend(EnvVarName(ref, "password"), "change-me", "", false)]
  }

  lemma EnvPartFree(s: string, c: char)
    requires c == '=' || c == '\n'
    ensures FreeOf(EnvPart(s), c) <==> FreeOf(s, c)
  {
    if c in s {
      var i :| 0 <= i < |s| && s[i] == c;
      assert EnvPart(s)[i] == c;
    }
    if c in EnvPart(s) {
      var i :| 0 <= i < |s| && EnvPart(s)[i] == c;
      assert s[i] == c;
    }
  }

  /** Text with no space at either end trims to itself. */
  lemma NothingToTrim(s: string)
    requires s != "" && !IsSpace(s[0]) && !IsSpace(s[|s| - 1])
    ensures TrimSpace(s) == s
  {
    TrimRightFacts(s);
  }

  lemma VariableReadsBack(ref: string, key: string)
    requires key == "username" || key == "password"
    ensures ReadsBack(EnvVarName(ref, key)) <==> FreeOf(ref, '=') && FreeOf(ref, '\n')
  {
    var v := EnvVarName(ref, key);
    EnvPartFree(ref, '=');
    EnvPartFree(ref, '\n');
    EnvPartFree(key, '=');
    EnvPartFree(key, '\n');
    assert v[0] == 'D';
    assert v[|v| - 1] == EnvPart(key)[|key| - 1];
    assert forall c :: c in v <==> c in "DATASCAPE_SECRET_" || c in EnvPart(ref) || c in "_" || c in EnvPart(key);
    NothingToTrim(v);
  }

  lemma CredentialsReadBack(ref: string, user: string)
    ensures (forall i :: 0 <= i < |SecretAppends(ref, user)| ==> ReadsBack(SecretAppends(ref, user)[i].key))
            <==> FreeOf(ref, '=') && FreeOf(ref, '\n')
  {
    VariableReadsBack(ref, "username");
    VariableReadsBack(ref, "password");
    var appends := SecretAppends(ref, user);
    assert appends[0].key == EnvVarName(ref, "username") && appends[1].key == EnvVarName(ref, "password");
  }

  /**
   * The credentials of a composed secret stay pending, however often the patch is written, exactly
   * when the secret's name contains an equals sign or a newline.
   */
  lemma CredentialsStayPending(files: Files, taken: set<(string, string)>, taken': set<(string, string)>, pieces: seq<Piece>, ref: string, user: string, patch: Patch, again: Patch)
    requires PatchOf(files, taken, pieces, SecretAppends(ref, user), patch) && again.dir == patch.dir
    requires PatchOf(Applied(files, patch), taken', pieces, SecretAppends(ref, user), again)
    ensures HasChanges(again) <==> '=' in ref || '\n' in ref
  {
    ComposeIdempotent(files, taken, taken', pieces, SecretAppends(ref, user), patch, again);
    CredentialsReadBack(ref, user);
  }

  /** `--name a=b` gives a secret whose credentials no .env file can hold. */
  lemma CredentialsNeverHeld(data: string)
    ensures !Assigns(data, EnvVarName("a=b-admin-creds", "username"))
  {
    assert "a=b-admin-creds"[1] == '=';
    VariableReadsBack("a=b-admin-creds", "username");
    if Assigns(data, EnvVarName("a=b-admin-creds", "username")) {
      OnlyReadableKeysAreRead(data, EnvVarName("a=b-admin-creds", "username"));
    }
  }
}
