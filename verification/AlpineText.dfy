/**
 Reading one entry of an APKINDEX file, as in parse_apkindex of tools/alpine-tools/alpine_index.py:
 an entry written out from a package is read back as that package.
 */
module AlpineText {
  import opened AlpineIndex

  predicate White(c: char) {
    c == ' ' || c == '\t' || c == '\n' || c == '\r'
  }

  predicate Blank(s: string) {
    forall i | 0 <= i < |s| :: White(s[i])
  }

  /** A word has characters, and none of them is a blank. */
  predicate Word(w: string) {
    w != "" && forall i | 0 <= i < |w| :: !White(w[i])
  }

  lemma {:induction false} WordsSkipsBlanks(b: string, s: string)
    requires Blank(b)
    ensures Words(b + s) == Words(s)
  {
    if b == "" {
      assert b + s == s;
    } else {
      WordsSkipsBlanks(b[1..], s);
      assert (b + s)[1..] == b[1..] + s && (b + s)[0] == b[0];
    }
  }

  lemma WordsTakesLetter(c: char, s: string)
    requires !White(c) && (s == "" || White(s[0]))
    ensures Words([c] + s) == [[c]] + Words(s)
  {
    assert ([c] + s)[1..] == s;
    if s != "" {
      assert ([c] + s)[1] == s[0];
    }
  }

  /** A word up to a blank or the end is the first of the words. */
  lemma {:induction false} WordsTakesWord(w: string, s: string)
    requires Word(w) && (s == "" || White(s[0]))
    ensures Words(w + s) == [w] + Words(s)
  {
    if |w| == 1 {
      assert w == [w[0]];
      WordsTakesLetter(w[0], s);
    } else {
      WordsTakesWord(w[1..], s);
      WordsGrows(w[0], w[1..] + s, w[1..], Words(s));
      assert w + s == [w[0]] + (w[1..] + s);
      assert w == [w[0]] + w[1..];
    }
  }

  lemma WordsGrows(c: char, s: string, w: string, rest: seq<string>)
    requires !White(c) && s != "" && !White(s[0]) && Words(s) == [w] + rest
    ensures Words([c] + s) == [[c] + w] + rest
  {
    assert ([c] + s)[1..] == s && ([c] + s)[1] == s[0];
    assert ([w] + rest)[1..] == rest;
  }

  /** The words with one blank between each two. */
  function Joined(ws: seq<string>): string {
    if ws == [] then "" else if |ws| == 1 then ws[0] else ws[0] + " " + Joined(ws[1..])
  }

  lemma WordThenMore(w: string, rest: string)
    requires Word(w)
    ensures Words(w + (" " + rest)) == [w] + Words(rest)
  {
    WordsSkipsBlanks(" ", rest);
    WordsTakesWord(w, " " + rest);
  }

  lemma Regroup<T>(a: seq<T>, b: seq<T>, c: seq<T>, d: seq<T>)
    ensures a + b + c + d == a + (b + (c + d))
  {
  }

  lemma HeadTail<T>(s: seq<T>)
    requires s != []
    ensures s == [s[0]] + s[1..]
  {
  }

  lemma WordsOfOne(w: string, after: string)
    requires Word(w) && Blank(after)
    ensures Words(w + after) == [w]
  {
    WordsTakesWord(w, after);
    WordsOfBlank(after);
  }

  lemma WordsOfBlank(b: string)
    requires Blank(b)
    ensures Words(b) == []
  {
    WordsSkipsBlanks(b, "");
    assert b + "" == b;
  }

  /** Splitting undoes joining, whatever blanks stand behind the text. */
  lemma {:induction false} WordsOfJoined(ws: seq<string>, after: string)
    requires (forall i | 0 <= i < |ws| :: Word(ws[i])) && Blank(after)
    ensures Words(Joined(ws) + after) == ws
  {
    if ws == [] {
      WordsOfBlank(after);
      assert Joined(ws) + after == after;
    } else if |ws| == 1 {
      WordsOfOne(ws[0], after);
      HeadTail(ws);
    } else {
      WordsOfJoined(ws[1..], after);
      WordThenMore(ws[0], Joined(ws[1..]) + after);
      Regroup(ws[0], " ", Joined(ws[1..]), after);
      HeadTail(ws);
    }
  }

  lemma {:induction false} TrimLeftExactly(b: string, s: string)
    requires Blank(b) && (s == "" || !White(s[0]))
    ensures TrimLeft(b + s) == s
  {
    if b == "" {
      assert b + s == s;
    } else {
      TrimLeftExactly(b[1..], s);
      assert (b + s)[1..] == b[1..] + s && (b + s)[0] == b[0];
    }
  }

  lemma {:induction false} TrimRightExactly(s: string, b: string)
    requires Blank(b) && (s == "" || !White(s[|s| - 1]))
    ensures TrimRight(s + b) == s
  {
    if b == "" {
      assert s + b == s;
    } else {
      TrimRightExactly(s, b[..|b| - 1]);
      assert (s + b)[..|s + b| - 1] == s + b[..|b| - 1] && (s + b)[|s + b| - 1] == b[|b| - 1];
    }
  }

  /** Line `i` is the last one that starts with `key`. */
  predicate LastLine(lines: seq<string>, key: string, i: nat) {
    i < |lines| && key <= lines[i] && forall j | i < j < |lines| :: !(key <= lines[j])
  }

  /** A field is what the last line of its kind says. */
  lemma {:induction false} FieldExactly(lines: seq<string>, key: string, i: nat)
    requires |key| == 2 && LastLine(lines, key, i)
    ensures Field(lines, key) == lines[i][2..]
  {
    var front := lines[..|lines| - 1];
    if i < |front| {
      assert forall j | 0 <= j < |front| :: front[j] == lines[j];
      FieldExactly(front, key, i);
    }
  }

  /** An entry without such a line has an empty field. */
  lemma {:induction false} NoField(lines: seq<string>, key: string)
    requires |key| == 2 && forall j | 0 <= j < |lines| :: !(key <= lines[j])
    ensures Field(lines, key) == ""
  {
    if lines != [] {
      NoField(lines[..|lines| - 1], key);
    }
  }

  lemma FieldText(lines: seq<string>, key: string, i: nat, text: string)
    requires |key| == 2 && LastLine(lines, key, i) && lines[i] == key + text
    ensures Field(lines, key) == text
  {
    FieldExactly(lines, key, i);
    assert (key + text)[2..] == text;
  }

  /** A name with no blank at its ends, and proper words for the rest, can be written out. */
  predicate Writable(name: string, depends: seq<string>, features: seq<string>) {
    && (name != "" ==> !White(name[0]) && !White(name[|name| - 1]))
    && (forall i | 0 <= i < |depends| :: Word(depends[i]))
    && (forall i | 0 <= i < |features| :: Word(features[i]))
  }

  /** The dependencies an entry gets: the shell is the one of busybox. */
  predicate ShellIsBusybox(depends: seq<string>, got: seq<string>) {
    && |got| == |depends|
    && forall i | 0 <= i < |depends| :: got[i] == if depends[i] == "/bin/sh" then "busybox" else depends[i]
  }

  /**
   Whatever else an entry says and in whatever order, its last lines for name, dependencies and
   features decide, and are read back as they were written.
   */
  lemma EntryReadsBack(lines: seq<string>, branch: string, i: nat, j: nat, k: nat,
                       name: string, depends: seq<string>, features: seq<string>, after: string)
    requires Writable(name, depends, features) && Blank(after)
    requires LastLine(lines, "P:", i) && lines[i] == "P:" + (name + after)
    requires LastLine(lines, "D:", j) && lines[j] == "D:" + (Joined(depends) + after)
    requires LastLine(lines, "p:", k) && lines[k] == "p:" + (Joined(features) + after)
    ensures var pkg := Entry(lines, branch);
            pkg.name == name && pkg.features == features && pkg.branch == branch && ShellIsBusybox(depends, pkg.depends)
  {
    FieldText(lines, "P:", i, name + after);
    FieldText(lines, "D:", j, Joined(depends) + after);
    FieldText(lines, "p:", k, Joined(features) + after);
    WordsOfJoined(depends, after);
    WordsOfJoined(features, after);
    NameReadsBack(name, after);
  }

  lemma NameReadsBack(name: string, after: string)
    requires Blank(after) && (name != "" ==> !White(name[0]) && !White(name[|name| - 1]))
    ensures TrimRight(TrimLeft(name + after)) == name
  {
    if name == "" {
      TrimLeftExactly(after, "");
      assert name + after == after + "";
    } else {
      TrimLeftExactly("", name + after);
      assert "" + (name + after) == name + after;
      TrimRightExactly(name, after);
    }
  }

  /** Without such lines there is nothing to read: no name, no dependencies, no features. */
  lemma EntryWithout(lines: seq<string>, branch: string)
    requires forall j | 0 <= j < |lines| :: !("P:" <= lines[j]) && !("D:" <= lines[j]) && !("p:" <= lines[j])
    ensures Entry(lines, branch) == Package("", [], [], branch)
  {
    NoField(lines, "P:");
    NoField(lines, "D:");
    NoField(lines, "p:");
  }
}
