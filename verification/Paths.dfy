/** Splitting text, and joining and cleaning slash-separated paths. */
module Paths {
  import opened Resources

  // ---------------------------------------------------------------- splitting

  /** The parts of [c] + s, given those of s. */
  function PutFirst(c: char, parts: seq<string>, sep: char): (r: seq<string>)
    requires parts != []
    ensures r != []
  {
    if c == sep then [""] + parts else [[c] + parts[0]] + parts[1..]
  }

  /** The text between separators: one part more than there are separators. */
  function Split(s: string, sep: char): (r: seq<string>)
    ensures r != []
  {
    if s == "" then [""] else PutFirst(s[0], Split(s[1..], sep), sep)
  }

  lemma SplitCons(c: char, s: string, sep: char)
    ensures Split([c] + s, sep) == PutFirst(c, Split(s, sep), sep)
  {
    assert ([c] + s)[1..] == s;
  }

  lemma PutFirstAppend(c: char, x: seq<string>, y: seq<string>, sep: char)
    requires x != []
    ensures PutFirst(c, x + y, sep) == PutFirst(c, x, sep) + y
  {
  }

  lemma {:induction false} SplitJoin(a: string, b: string, sep: char)
    ensures Split(a + [sep] + b, sep) == Split(a, sep) + Split(b, sep)
  {
    if a == "" {
      assert a + [sep] + b == [sep] + b;
      SplitCons(sep, b, sep);
    } else {
      var rest := a[1..] + [sep] + b;
      assert a + [sep] + b == [a[0]] + rest;
      SplitCons(a[0], rest, sep);
      SplitJoin(a[1..], b, sep);
      PutFirstAppend(a[0], Split(a[1..], sep), Split(b, sep), sep);
    }
  }

  lemma {:induction false} SplitFree(s: string, sep: char, i: nat)
    requires i < |Split(s, sep)|
    ensures FreeOf(Split(s, sep)[i], sep)
  {
    if s != "" {
      if s[0] == sep {
        if i > 0 {
          SplitFree(s[1..], sep, i - 1);
        }
      } else {
        SplitFree(s[1..], sep, i);
      }
    }
  }

  lemma {:induction false} SplitFirst(k: string, s: string, sep: char)
    requires FreeOf(k, sep)
    ensures Split(k + s, sep)[0] == k + Split(s, sep)[0]
  {
    if k == "" {
      assert k + s == s && k + Split(s, sep)[0] == Split(s, sep)[0];
    } else {
      SplitFirst(k[1..], s, sep);
      assert (k + s)[1..] == k[1..] + s;
      assert k == [k[0]] + k[1..];
    }
  }

  lemma {:induction false} SplitWhole(s: string, sep: char)
    requires FreeOf(s, sep)
    ensures Split(s, sep) == [s]
  {
    if s != "" {
      SplitWhole(s[1..], sep);
      assert s == [s[0]] + s[1..];
    }
  }

  function Last(parts: seq<string>): string
    requires parts != []
  {
    parts[|parts| - 1]
  }

  function ExtendLast(parts: seq<string>, t: string): seq<string>
    requires parts != []
  {
    parts[..|parts| - 1] + [Last(parts) + t]
  }

  /** Text without the separator only extends the last part. */
  lemma {:induction false} SplitLast(s: string, t: string, sep: char)
    requires FreeOf(t, sep)
    ensures Split(s + t, sep) == ExtendLast(Split(s, sep), t)
  {
    if s == "" {
      assert s + t == t;
      SplitWhole(t, sep);
    } else {
      assert s == [s[0]] + s[1..] && s + t == [s[0]] + (s[1..] + t);
      SplitCons(s[0], s[1..], sep);
      SplitCons(s[0], s[1..] + t, sep);
      SplitLast(s[1..], t, sep);
      if s[0] != sep {
        ExtendHead(s[0], Split(s[1..], sep), t);
      }
    }
  }

  lemma ExtendHead(c: char, parts: seq<string>, t: string)
    requires parts != []
    ensures ExtendLast([[c] + parts[0]] + parts[1..], t) == [[c] + ExtendLast(parts, t)[0]] + ExtendLast(parts, t)[1..]
  {
    if |parts| == 1 {
      assert [c] + (parts[0] + t) == ([c] + parts[0]) + t;
    }
  }

  // ---------------------------------------------------------------- cleaning

  /** One path element: empty and "." vanish, ".." takes back the element before it. */
  function Reduce(stack: seq<string>, part: string, rooted: bool): seq<string> {
    if part == "" || part == "." then stack
    else if part != ".." then stack + [part]
    else if stack != [] && Last(stack) != ".." then stack[..|stack| - 1]
    else if rooted then stack
    else stack + [".."]
  }

  function ReduceAll(parts: seq<string>, rooted: bool): seq<string> {
    if parts == [] then [] else Reduce(ReduceAll(parts[..|parts| - 1], rooted), Last(parts), rooted)
  }

  function JoinParts(parts: seq<string>): string {
    if parts == [] then ""
    else if |parts| == 1 then parts[0]
    else JoinParts(parts[..|parts| - 1]) + "/" + Last(parts)
  }

  /** What precedes a further element. */
  function Lead(parts: seq<string>): string {
    if parts == [] then "" else JoinParts(parts) + "/"
  }

  predicate Rooted(path: string) {
    path != "" && path[0] == '/'
  }

  function Render(stack: seq<string>, rooted: bool): string {
    var body := JoinParts(stack);
    if rooted then "/" + body else if body == "" then "." else body
  }

  /** The shortest equivalent path, by lexical processing alone. */
  function Clean(path: string): string {
    Render(ReduceAll(Split(path, '/'), Rooted(path)), Rooted(path))
  }

  function Join(dir: string, path: string): string {
    if dir == "" then Clean(path) else Clean(dir + "/" + path)
  }

  predicate IsPlainPart(part: string) {
    part != "" && part != "." && part != ".."
  }

  /** What is rendered before a last element; it does not depend on that element. */
  function Prefix(stack: seq<string>, rooted: bool): string {
    (if rooted then "/" else "") + Lead(stack)
  }

  lemma ReduceLast(parts: seq<string>, last: string, rooted: bool)
    requires IsPlainPart(last)
    ensures ReduceAll(parts + [last], rooted) == ReduceAll(parts, rooted) + [last]
  {
    assert (parts + [last])[..|parts|] == parts;
  }

  lemma RenderLast(stack: seq<string>, last: string, rooted: bool)
    requires last != ""
    ensures Render(stack + [last], rooted) == Prefix(stack, rooted) + last
  {
    assert (stack + [last])[..|stack|] == stack;
    assert JoinParts(stack + [last]) == Lead(stack) + last;
    assert "/" + (Lead(stack) + last) == ("/" + Lead(stack)) + last;
    assert "" + Lead(stack) == Lead(stack);
  }

  lemma CleanKeepsLast(path: string, parts: seq<string>, last: string)
    requires Split(path, '/') == parts + [last] && IsPlainPart(last)
    ensures Clean(path) == Prefix(ReduceAll(parts, Rooted(path)), Rooted(path)) + last
  {
    ReduceLast(parts, last, Rooted(path));
    RenderLast(ReduceAll(parts, Rooted(path)), last, Rooted(path));
  }

  /** The cleaned directory as it precedes a file name. */
  function DirectoryPrefix(dir: string): string {
    if dir == "" then "" else Prefix(ReduceAll(Split(dir, '/'), Rooted(dir)), Rooted(dir))
  }

  /** Joining a directory with one plain element appends it to a prefix of the directory's own. */
  lemma JoinPlain(dir: string, name: string)
    requires FreeOf(name, '/') && IsPlainPart(name)
    ensures Join(dir, name) == DirectoryPrefix(dir) + name
  {
    SplitWhole(name, '/');
    if dir == "" {
      assert [] + [name] == [name];
      CleanKeepsLast(name, [], name);
      assert !Rooted(name);
    } else {
      SplitJoin(dir, name, '/');
      assert dir + "/" + name == dir + ['/'] + name;
      CleanKeepsLast(dir + "/" + name, Split(dir, '/'), name);
    }
  }

  /** A plain element followed by ".." leaves no trace. */
  lemma ParentIsTakenBack(part: string, name: string)
    requires FreeOf(part, '/') && IsPlainPart(part) && FreeOf(name, '/') && IsPlainPart(name)
    ensures Clean(part + "/../" + name) == name
  {
    var path := part + "/../" + name;
    assert path == part + ['/'] + (".." + ['/'] + name);
    SplitJoin(part, ".." + ['/'] + name, '/');
    SplitJoin("..", name, '/');
    SplitWhole(part, '/');
    SplitWhole("..", '/');
    SplitWhole(name, '/');
    assert Split(path, '/') == [part, ".."] + [name];
    CleanKeepsLast(path, [part, ".."], name);
    assert path[0] == part[0];
    assert [part, ".."][..1] == [part] && [part][..0] == [];
    assert ReduceAll([part], false) == [part];
    assert ReduceAll([part, ".."], false) == [];
  }

  lemma CleanEnds(path: string, tail: string) returns (front: string)
    requires FreeOf(tail, '/') && |tail| > 2
    ensures Clean(path + tail) == front + tail
  {
    var parts := Split(path, '/');
    SplitLast(path, tail, '/');
    CleanKeepsLast(path + tail, parts[..|parts| - 1], Last(parts) + tail);
    front := Prefix(ReduceAll(parts[..|parts| - 1], Rooted(path + tail)), Rooted(path + tail)) + Last(parts);
  }

  /** A joined path ends as its last element does. */
  lemma JoinEnds(dir: string, path: string, tail: string) returns (front: string)
    requires FreeOf(tail, '/') && |tail| > 2
    ensures Join(dir, path + tail) == front + tail
  {
    if dir == "" {
      front := CleanEnds(path, tail);
    } else {
      assert dir + "/" + (path + tail) == (dir + "/" + path) + tail;
      front := CleanEnds(dir + "/" + path, tail);
    }
  }
}
