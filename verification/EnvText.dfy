/** Reading assignments back out of a .env file. */
module EnvText {
  import opened Resources
  import opened Paths

  // ---------------------------------------------------------------- lines

  /** The text between newlines; blank lines carry no assignment, so a trailing newline is harmless. */
  function Lines(s: string): seq<string> {
    Split(s, '\n')
  }

  // ---------------------------------------------------------------- trimming

  predicate IsSpace(c: char) {
    || '\t' <= c <= '\r' || c == ' ' || c == '\U{85}' || c == '\U{A0}' || c == '\U{1680}'
    || '\U{2000}' <= c <= '\U{200A}' || c == '\U{2028}' || c == '\U{2029}' || c == '\U{202F}'
    || c == '\U{205F}' || c == '\U{3000}'
  }

  function TrimLeft(s: string): string {
    if s != "" && IsSpace(s[0]) then TrimLeft(s[1..]) else s
  }

  function TrimRight(s: string): string {
    if s != "" && IsSpace(s[|s| - 1]) then TrimRight(s[..|s| - 1]) else s
  }

  function TrimSpace(s: string): string {
    TrimRight(TrimLeft(s))
  }

  lemma {:induction false} TrimLeftFacts(s: string)
    ensures TrimLeft(s) == "" || !IsSpace(TrimLeft(s)[0])
    ensures forall c :: c in TrimLeft(s) ==> c in s
  {
    if s != "" && IsSpace(s[0]) {
      TrimLeftFacts(s[1..]);
    }
  }

  /** Trimming the right keeps a prefix that reaches past every non-space. */
  lemma {:induction false} TrimRightFacts(s: string)
    ensures TrimRight(s) <= s
    ensures TrimRight(s) == "" || !IsSpace(TrimRight(s)[|TrimRight(s)| - 1])
    ensures forall i :: 0 <= i < |s| && !IsSpace(s[i]) ==> i < |TrimRight(s)|
  {
    if s != "" && IsSpace(s[|s| - 1]) {
      TrimRightFacts(s[..|s| - 1]);
    }
  }

  lemma TrimSpaceFacts(s: string)
    ensures TrimSpace(TrimSpace(s)) == TrimSpace(s)
    ensures forall c :: c in TrimSpace(s) ==> c in s
    ensures TrimSpace(s) == "" || !IsSpace(TrimSpace(s)[0])
  {
    TrimLeftFacts(s);
    TrimRightFacts(TrimLeft(s));
    var t := TrimSpace(s);
    if t != "" {
      assert t[0] == TrimLeft(s)[0];
      assert TrimLeft(t) == t;
    }
  }

  // ---------------------------------------------------------------- keys

  /** What precedes the first '='. */
  function BeforeEquals(s: string): Option<string> {
    if s == "" then None
    else if s[0] == '=' then Some("")
    else match BeforeEquals(s[1..]) case None => None case Some(x) => Some([s[0]] + x)
  }

  lemma {:induction false} BeforeEqualsFinds(k: string, rest: string)
    requires '=' !in k
    ensures BeforeEquals(k + "=" + rest) == Some(k)
  {
    if k == "" {
      assert k + "=" + rest == "=" + rest;
    } else {
      BeforeEqualsFinds(k[1..], rest);
      assert (k + "=" + rest)[1..] == k[1..] + "=" + rest;
      assert k == [k[0]] + k[1..];
    }
  }

  lemma {:induction false} BeforeEqualsSound(s: string)
    requires BeforeEquals(s).Some?
    ensures '=' !in BeforeEquals(s).value && BeforeEquals(s).value <= s
  {
    if s[0] != '=' {
      BeforeEqualsSound(s[1..]);
    }
  }

  /** The key a line assigns, if it assigns one. */
  function LineKey(line: string): Option<string> {
    var t := TrimSpace(line);
    if t == "" || t[0] == '#' then None
    else match BeforeEquals(t) case None => None case Some(k) => Some(TrimSpace(k))
  }

  ghost predicate Assigns(data: string, k: string) {
    exists i :: 0 <= i < |Lines(data)| && LineKey(Lines(data)[i]) == Some(k)
  }

  method ReadEnvKeys(data: string) returns (keys: set<string>)
    ensures forall k :: k in keys <==> Assigns(data, k)
  {
    keys := {};
    var lines := Lines(data);
    var i := 0;
    while i < |lines|
      invariant 0 <= i <= |lines|
      invariant forall k :: k in keys <==> exists j :: 0 <= j < i && LineKey(lines[j]) == Some(k)
    {
      var line := TrimSpace(lines[i]);
      if line != "" && line[0] != '#' {
        var key := BeforeEquals(line);
        if key.Some? {
          keys := keys + {TrimSpace(key.value)};
        }
      }
      i := i + 1;
    }
  }

  lemma AssignsJoin(a: string, b: string, k: string)
    ensures Assigns(a + "\n" + b, k) <==> Assigns(a, k) || Assigns(b, k)
  {
    SplitJoin(a, b, '\n');
    assert a + "\n" + b == a + ['\n'] + b;
    assert Lines(a + "\n" + b) == Lines(a) + Lines(b);
    var n, all := |Lines(a)|, Lines(a) + Lines(b);
    assert forall i :: 0 <= i < n ==> all[i] == Lines(a)[i];
    assert forall i :: 0 <= i < |Lines(b)| ==> all[n + i] == Lines(b)[i];
    assert forall i :: n <= i < |all| ==> all[i] == Lines(b)[i - n];
  }

  /** Keys that an appended KEY=VALUE line gives back when the file is read again. */
  predicate ReadsBack(k: string) {
    '=' !in k && '\n' !in k && TrimSpace(k) == k && (k == "" || k[0] != '#')
  }

  lemma AssignmentLineKey(k: string, value: string)
    requires ReadsBack(k)
    ensures LineKey(k + "=" + value) == Some(k)
  {
    var line := k + "=" + value;
    TrimSpaceFacts(k);
    assert line[0] == if k == "" then '=' else k[0];
    assert TrimLeft(line) == line;
    TrimRightFacts(line);
    assert line[|k|] == '=';
    var rest := TrimSpace(line)[|k| + 1..];
    assert TrimSpace(line) == k + "=" + rest;
    BeforeEqualsFinds(k, rest);
  }

  lemma AssignmentIsRead(k: string, value: string)
    requires ReadsBack(k)
    ensures Assigns(k + "=" + value, k)
  {
    SplitFirst(k + "=", value, '\n');
    AssignmentLineKey(k, Lines(value)[0]);
    assert LineKey(Lines(k + "=" + value)[0]) == Some(k);
  }

  lemma OnlyReadableKeysAreRead(data: string, k: string)
    requires Assigns(data, k)
    ensures ReadsBack(k)
  {
    var i :| 0 <= i < |Lines(data)| && LineKey(Lines(data)[i]) == Some(k);
    var line := Lines(data)[i];
    SplitFree(data, '\n', i);
    var t := TrimSpace(line);
    TrimSpaceFacts(line);
    BeforeEqualsSound(t);
    var raw := BeforeEquals(t).value;
    TrimSpaceFacts(raw);
    assert forall c :: c in raw ==> c in t;
    if raw != "" {
      assert raw[0] == t[0];
      assert TrimLeft(raw) == raw;
      TrimRightFacts(raw);
    }
  }
}
