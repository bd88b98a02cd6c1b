/** Joining and splitting of text, as `strings.Join` and `strings.Split` do it. */
module Text {
  datatype Option<+T> = None | Some(value: T)

  function Join(parts: seq<string>, sep: string): string {
    if parts == [] then ""
    else if |parts| == 1 then parts[0]
    else parts[0] + sep + Join(parts[1..], sep)
  }

  function SplitLines(s: string): (lines: seq<string>)
    ensures |lines| > 0
  {
    if s == "" then [""]
    else
      var rest := SplitLines(s[1..]);
      if s[0] == '\n' then [""] + rest else [[s[0]] + rest[0]] + rest[1..]
  }

  predicate OneLine(s: string) {
    '\n' !in s
  }

  predicate AllOneLine(lines: seq<string>) {
    forall i | 0 <= i < |lines| :: OneLine(lines[i])
  }

  lemma {:induction false} SplitThenJoin(s: string)
    ensures Join(SplitLines(s), "\n") == s
    ensures AllOneLine(SplitLines(s))
  {
    if s != "" {
      SplitThenJoin(s[1..]);
      var rest := SplitLines(s[1..]);
      assert s == [s[0]] + s[1..];
      if s[0] == '\n' {
        assert ([""] + rest)[1..] == rest;
      } else {
        var lines := [[s[0]] + rest[0]] + rest[1..];
        assert lines[1..] == rest[1..];
        if |rest| > 1 {
          assert Join(lines, "\n") == [s[0]] + rest[0] + "\n" + Join(rest[1..], "\n");
        }
      }
    }
  }

  lemma {:induction false} SplitPrependsLine(line: string, s: string)
    requires OneLine(line)
    ensures SplitLines(line + "\n" + s) == [line] + SplitLines(s)
  {
    var t := line + "\n" + s;
    if line == "" {
      assert t[1..] == s;
    } else {
      assert t[1..] == line[1..] + "\n" + s;
      SplitPrependsLine(line[1..], s);
      assert [line[0]] + line[1..] == line;
    }
  }

  lemma {:induction false} SplitOneLine(line: string)
    requires OneLine(line)
    ensures SplitLines(line) == [line]
  {
    if line != "" {
      SplitOneLine(line[1..]);
      assert [line[0]] + line[1..] == line;
    }
  }

  lemma {:induction false} JoinThenSplit(lines: seq<string>)
    requires lines != [] && AllOneLine(lines)
    ensures SplitLines(Join(lines, "\n")) == lines
  {
    hide SplitLines, OneLine;
    if |lines| == 1 {
      SplitOneLine(lines[0]);
    } else {
      JoinThenSplit(lines[1..]);
      SplitPrependsLine(lines[0], Join(lines[1..], "\n"));
      assert lines[0] + "\n" + Join(lines[1..], "\n") == Join(lines, "\n");
    }
  }

  lemma {:induction false} JoinAppend(a: seq<string>, b: seq<string>, sep: string)
    requires a != [] && b != []
    ensures Join(a + b, sep) == Join(a, sep) + sep + Join(b, sep)
  {
    if |a| == 1 {
      assert (a + b)[1..] == b;
    } else {
      JoinAppend(a[1..], b, sep);
      assert (a + b)[1..] == a[1..] + b;
    }
  }

  predicate HasPrefix(s: string, p: string) {
    |p| <= |s| && s[..|p|] == p
  }

  // ---------- paths as text ----------

  /** Names joined by slashes contain none of their own. */
  predicate SlashFree(parts: seq<string>) {
    forall i | 0 <= i < |parts| :: '/' !in parts[i]
  }

  lemma {:induction false} SlashFirst(a: string, b: string, x: string, y: string)
    requires '/' !in a && '/' !in b && HasPrefix(b + "/" + y, a + "/" + x)
    ensures a == b && HasPrefix(y, x)
  {
    var s, t := a + "/" + x, b + "/" + y;
    assert forall i | 0 <= i < |s| :: s[i] == t[..|s|][i] == t[i];
    assert s[|a|] == '/' && t[|b|] == '/';
    assert forall i | 0 <= i < |a| :: s[i] == a[i] && s[i] != '/';
    assert forall i | 0 <= i < |b| :: t[i] == b[i] && t[i] != '/';
    assert |a| == |b|;
    assert s[..|a|] == a && t[..|b|] == b && a == t[..|a|];
    assert s[|a| + 1..] == x && t[|b| + 1..] == y;
    assert y[..|x|] == t[..|s|][|a| + 1..] == x;
  }

  lemma SlashNever(a: string, b: string, x: string)
    requires '/' !in b
    ensures !HasPrefix(b, a + "/" + x)
  {
    assert (a + "/" + x)[|a|] == '/';
    PrefixIn(b, a + "/" + x, |a|);
  }

  lemma PrefixIn(s: string, p: string, i: nat)
    requires i < |p|
    ensures HasPrefix(s, p) ==> p[i] in s
  {
    if HasPrefix(s, p) { assert s[i] == s[..|p|][i]; }
  }

  /** A path is another one, or lies below it, exactly when its names begin with those of the other. */
  lemma {:induction false} BelowIff(a: seq<string>, b: seq<string>)
    requires a != [] && b != [] && SlashFree(a) && SlashFree(b)
    ensures Join(a, "/") == Join(b, "/") || HasPrefix(Join(b, "/"), Join(a, "/") + "/") <==> a <= b
    ensures Join(a, "/") == Join(b, "/") <==> a == b
  {
    if |a| == 1 && |b| == 1 {
      SlashNever(a[0], b[0], "");
      assert Join(a, "/") + "/" == a[0] + "/" + "";
    } else if |a| == 1 {
      FirstName(a[0], b);
    } else if |b| == 1 {
      SlashNever(a[0], b[0], Join(a[1..], "/"));
      SlashNever(a[0], b[0], Join(a[1..], "/") + "/");
      assert Join(a, "/") + "/" == a[0] + "/" + (Join(a[1..], "/") + "/");
      assert Join(a, "/")[|a[0]|] == '/';
    } else {
      BelowIff(a[1..], b[1..]);
      TwoPaths(a, b);
    }
  }

  lemma FirstName(n: string, b: seq<string>)
    requires |b| > 1 && SlashFree(b) && '/' !in n
    ensures HasPrefix(Join(b, "/"), n + "/") <==> n == b[0]
    ensures n != Join(b, "/")
  {
    var y := Join(b[1..], "/");
    assert Join(b, "/") == b[0] + "/" + y;
    assert (b[0] + "/" + y)[|b[0]|] == '/';
    assert n + "/" == n + "/" + "";
    if HasPrefix(Join(b, "/"), n + "/") { SlashFirst(n, b[0], "", y); }
    if n == b[0] { assert Join(b, "/")[..|n| + 1] == n + "/"; }
  }

  lemma TwoPaths(a: seq<string>, b: seq<string>)
    requires |a| > 1 && |b| > 1 && SlashFree(a) && SlashFree(b)
    requires Join(a[1..], "/") == Join(b[1..], "/") || HasPrefix(Join(b[1..], "/"), Join(a[1..], "/") + "/") <==> a[1..] <= b[1..]
    requires Join(a[1..], "/") == Join(b[1..], "/") <==> a[1..] == b[1..]
    ensures Join(a, "/") == Join(b, "/") || HasPrefix(Join(b, "/"), Join(a, "/") + "/") <==> a <= b
    ensures Join(a, "/") == Join(b, "/") <==> a == b
  {
    var x, y := Join(a[1..], "/"), Join(b[1..], "/");
    assert Join(a, "/") == a[0] + "/" + x && Join(b, "/") == b[0] + "/" + y;
    assert Join(a, "/") + "/" == a[0] + "/" + (x + "/");
    assert a == [a[0]] + a[1..] && b == [b[0]] + b[1..];
    if Join(a, "/") == Join(b, "/") {
      assert HasPrefix(b[0] + "/" + y, a[0] + "/" + x);
      SlashFirst(a[0], b[0], x, y);
      assert x == (a[0] + "/" + x)[|a[0]| + 1..] == (b[0] + "/" + y)[|b[0]| + 1..] == y;
    }
    if HasPrefix(Join(b, "/"), Join(a, "/") + "/") { SlashFirst(a[0], b[0], x + "/", y); }
    if a <= b {
      assert a[0] == b[0] && a[1..] <= b[1..];
      if x != y {
        assert Join(b, "/")[..|Join(a, "/")| + 1] == a[0] + "/" + y[..|x| + 1];
      }
    }
    if a == b { assert a <= b; }
  }
}
