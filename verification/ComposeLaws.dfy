/** What writing a patch adds to the directory, line by line, and when it adds nothing. */
module ComposeLaws {
  import opened Resources
  import opened Paths
  import opened EnvText
  import opened ComposeWrite

  /** The lines of one pending key: its comment, if any, and its assignment. */
  ghost function AppendLines(a: EnvAppend): seq<string> {
    if !a.pending then []
    else (if a.comment != "" then ["# " + a.comment] else []) + [a.key + "=" + a.value]
  }

  ghost function AllAppendLines(appends: seq<EnvAppend>): seq<string> {
    if appends == [] then [] else AppendLines(appends[0]) + AllAppendLines(appends[1..])
  }

  ghost predicate OneLine(a: EnvAppend) {
    FreeOf(a.key, '\n') && FreeOf(a.value, '\n') && FreeOf(a.comment, '\n')
  }

  lemma LineFirst(line: string, rest: string)
    requires FreeOf(line, '\n')
    ensures Lines(line + "\n" + rest) == [line] + Lines(rest)
  {
    assert line + "\n" + rest == line + ['\n'] + rest;
    SplitJoin(line, rest, '\n');
    SplitWhole(line, '\n');
  }

  lemma PlainAppendLines(a: EnvAppend, rest: string)
    requires OneLine(a) && a.pending && a.comment == ""
    ensures Lines(AppendText(a) + rest) == [a.key + "=" + a.value] + Lines(rest)
  {
    var line := a.key + "=" + a.value;
    assert AppendText(a) == line + "\n";
    assert AppendText(a) + rest == line + "\n" + rest;
    LineFirst(line, rest);
  }

  lemma CommentedAppendLines(a: EnvAppend, rest: string)
    requires OneLine(a) && a.pending && a.comment != ""
    ensures Lines(AppendText(a) + rest) == ["# " + a.comment] + ([a.key + "=" + a.value] + Lines(rest))
  {
    var comment, line := "# " + a.comment, a.key + "=" + a.value;
    assert AppendText(a) == comment + "\n" + line + "\n";
    assert AppendText(a) + rest == comment + "\n" + (line + "\n" + rest);
    LineFirst(comment, line + "\n" + rest);
    LineFirst(line, rest);
  }

  lemma AppendTextLines(a: EnvAppend, rest: string)
    requires OneLine(a)
    ensures Lines(AppendText(a) + rest) == AppendLines(a) + Lines(rest)
  {
    if !a.pending {
      assert AppendText(a) + rest == rest;
    } else if a.comment == "" {
      PlainAppendLines(a, rest);
    } else {
      CommentedAppendLines(a, rest);
    }
  }

  lemma {:induction false} AssignmentLines(appends: seq<EnvAppend>)
    requires forall i :: 0 <= i < |appends| ==> OneLine(appends[i])
    ensures Lines(Assignments(appends)) == AllAppendLines(appends) + [""]
  {
    if appends != [] {
      AssignmentLines(appends[1..]);
      AppendTextLines(appends[0], Assignments(appends[1..]));
    }
  }

  ghost function HeaderLine(command: string): string {
    "# appended by platformctl " + command + "; fill in real values (docs/planning/08 E9)"
  }

  lemma HeaderIsOneLine(command: string)
    requires FreeOf(command, '\n')
    ensures Header(command) == HeaderLine(command) && FreeOf(HeaderLine(command), '\n')
  {
    var before, after := "# appended by platformctl ", "; fill in real values (docs/planning/08 E9)";
    assert '\n' !in before;
    assert '\n' !in after;
    assert forall c :: c in before + command + after <==> c in before || c in command || c in after;
  }

  lemma SectionLines(env: string, header: string, block: string)
    requires FreeOf(header, '\n')
    ensures Lines(env + ("\n" + header + "\n" + block)) == Lines(env) + [header] + Lines(block)
  {
    LineFirst(header, block);
    assert env + ("\n" + header + "\n" + block) == env + ['\n'] + (header + "\n" + block);
    SplitJoin(env, header + "\n" + block, '\n');
  }

  lemma BlockLines(env: string, command: string, appends: seq<EnvAppend>)
    requires FreeOf(command, '\n') && forall i :: 0 <= i < |appends| ==> OneLine(appends[i])
    ensures Lines(env + EnvBlock(command, appends)) == Lines(env) + [HeaderLine(command)] + (AllAppendLines(appends) + [""])
  {
    HeaderIsOneLine(command);
    AssignmentLines(appends);
    SectionLines(env, HeaderLine(command), Assignments(appends));
  }

  /**
   * Writing adds to .env, when some key is pending, a header and for each pending key, in order, its
   * comment and its assignment with the proposed value; otherwise it leaves .env alone.
   */
  lemma EnvLinesLaw(files: Files, taken: set<(string, string)>, pieces: seq<Piece>, appends: seq<EnvAppend>, patch: Patch)
    requires PatchOf(files, taken, pieces, appends, patch) && FreeOf(patch.command, '\n')
    requires forall i :: 0 <= i < |patch.envAppends| ==> OneLine(patch.envAppends[i])
    ensures AnyPending(patch.envAppends) ==>
              Lines(EnvData(Applied(files, patch), patch.dir))
              == Lines(EnvData(files, patch.dir)) + [HeaderLine(patch.command)] + (AllAppendLines(patch.envAppends) + [""])
    ensures !AnyPending(patch.envAppends) ==> EnvData(Applied(files, patch), patch.dir) == EnvData(files, patch.dir)
  {
    EnvUntouched(files, taken, pieces, appends, patch);
    BlockLines(EnvData(files, patch.dir), patch.command, patch.envAppends);
  }

  lemma {:induction false} NothingNew(files: Files, dir: string, ops: seq<FileOp>)
    requires forall i :: 0 <= i < |ops| ==> !ops[i].isNew
    ensures WithNewFiles(files, dir, ops) == files
  {
    if ops != [] {
      NothingNew(files, dir, ops[..|ops| - 1]);
    }
  }

  /** A patch reports changes exactly when writing it changes the directory. */
  lemma HasChangesLaw(files: Files, taken: set<(string, string)>, pieces: seq<Piece>, appends: seq<EnvAppend>, patch: Patch)
    requires PatchOf(files, taken, pieces, appends, patch)
    ensures HasChanges(patch) <==> Applied(files, patch) != files
  {
    EnvUntouched(files, taken, pieces, appends, patch);
    NoCollisionAgain(files, taken, taken, pieces, appends, patch);
    forall i | 0 <= i < |pieces| ensures patch.files[i].identical <==> !patch.files[i].isNew {
      assert Places(files, patch.dir, pieces[i], patch.files[i]);
    }
    if i :| 0 <= i < |pieces| && patch.files[i].isNew {
      NewIffAbsent(files, taken, patch.dir, pieces[i], patch.files[i]);
      assert Destination(patch.dir, pieces[i]) in Applied(files, patch);
    } else {
      NothingNew(files, patch.dir, patch.files);
    }
    if AnyPending(patch.envAppends) {
      PendingGrows(files, patch);
    }
  }

  lemma PendingGrows(files: Files, patch: Patch)
    requires AnyPending(patch.envAppends) && EnvData(WithNewFiles(files, patch.dir, patch.files), patch.dir) == EnvData(files, patch.dir)
    ensures |EnvData(Applied(files, patch), patch.dir)| > |EnvData(files, patch.dir)|
  {
  }

  // ---------------------------------------------------------------- names on disk and in .env

  /** The file of a resource, by kind. */
  lemma FileNamesLaw(name: string)
    ensures FilePath("Provider", name) == "provider-" + name + ".yaml"
    ensures FilePath("Source", name) == "source-" + name + ".yaml"
    ensures FilePath("EventStream", name) == "eventstream-" + name + ".yaml"
    ensures FilePath("Binding", name) == "binding-" + name + ".yaml"
    ensures FilePath("Dataset", name) == "dataset-" + name + ".yaml"
    ensures FilePath("SecretReference", name) == "secret-" + name + ".yaml"
    ensures FilePath("Connection", name) == "connection-" + name + ".yaml"
    ensures FilePath("Catalog", name) == "catalog-" + name + ".yaml"
    ensures FilePath("Project", name) == "project-" + name + ".yaml"
  {
    assert ToLower("Project") == "project";
  }

  lemma VariableExample()
    ensures EnvPart("shop-db") == "SHOP_DB" && EnvPart("username") == "USERNAME" && EnvPart("password") == "PASSWORD"
  {
  }

  /** The variables of a secret: upper case, with underscores for dashes, proposed with a user and a placeholder. */
  lemma CredentialsLaw(ref: string, user: string)
    ensures |SecretAppends(ref, user)| == 2
    ensures SecretAppends(ref, user)[0].key == "DATASCAPE_SECRET_" + EnvPart(ref) + "_USERNAME" && SecretAppends(ref, user)[0].value == user
    ensures SecretAppends(ref, user)[1].key == "DATASCAPE_SECRET_" + EnvPart(ref) + "_PASSWORD" && SecretAppends(ref, user)[1].value == "change-me"
  {
    VariableExample();
    assert "_" + "USERNAME" == "_USERNAME" && "_" + "PASSWORD" == "_PASSWORD";
    var start := "DATASCAPE_SECRET_" + EnvPart(ref);
    assert (start + "_") + "USERNAME" == start + ("_" + "USERNAME");
    assert (start + "_") + "PASSWORD" == start + ("_" + "PASSWORD");
  }

  /** There is no parent above the root; a relative path may climb out of its directory. */
  lemma ParentLaw(name: string)
    requires IsPlainPart(name)
    ensures ReduceAll(["..", name], true) == [name] && ReduceAll(["..", name], false) == ["..", name]
  {
    assert ["..", name][..1] == [".."] && [".."][..0] == [];
    assert ReduceAll([".."], true) == [] && ReduceAll([".."], false) == [".."];
  }

  // ---------------------------------------------------------------- spaces around a key

  ghost predicate Blank(s: string) {
    forall i :: 0 <= i < |s| ==> s[i] == ' ' || s[i] == '\t' || s[i] == '\r' || s[i] == '\U{A0}'
  }

  lemma {:induction false} TrimLeftSkips(blank: string, s: string)
    requires Blank(blank)
    ensures TrimLeft(blank + s) == TrimLeft(s)
  {
    if blank == "" {
      assert blank + s == s;
    } else {
      TrimLeftSkips(blank[1..], s);
      assert (blank + s)[1..] == blank[1..] + s;
    }
  }

  lemma {:induction false} TrimRightSkips(s: string, blank: string)
    requires Blank(blank)
    ensures TrimRight(s + blank) == TrimRight(s)
  {
    if blank == "" {
      assert s + blank == s;
    } else {
      var n := |blank| - 1;
      TrimRightSkips(s, blank[..n]);
      assert (s + blank)[..|s| + n] == s + blank[..n];
    }
  }

  /** Blanks before a key and between it and its equals sign do not hide the assignment. */
  lemma BlanksAreIgnored(before: string, k: string, between: string, value: string)
    requires Blank(before) && Blank(between) && k != "" && ReadsBack(k)
    ensures LineKey(before + k + between + "=" + value) == Some(k)
  {
    var rest := k + between + "=" + value;
    assert before + k + between + "=" + value == before + rest;
    TrimLeftSkips(before, rest);
    TrimSpaceFacts(k);
    assert rest[0] == k[0];
    assert TrimLeft(rest) == rest;
    TrimRightFacts(rest);
    var cut := |k + between|;
    assert rest[cut] == '=';
    var tail := TrimRight(rest)[cut + 1..];
    assert TrimRight(rest) == (k + between) + "=" + tail;
    assert '=' !in k + between;
    BeforeEqualsFinds(k + between, tail);
    assert TrimLeft(k + between) == k + between;
    TrimRightSkips(k, between);
    assert TrimLeft(k) == k;
  }
}
