/** The POSIX flavour of Python's `os.path` functions that the
    georeferencing driver uses to name folders and files. */
module PyPath {
  import opened PyText

  /** Index of the last `c` in `s`, or -1 (Python's `str.rfind`). */
  function RFind(s: string, c: char): (i: int)
    ensures -1 <= i < |s|
    ensures i >= 0 ==> s[i] == c
  {
    if s == [] then -1
    else if s[|s| - 1] == c then |s| - 1
    else RFind(s[..|s| - 1], c)
  }

  /** No `c` follows the index `RFind` returns: it is the last one. */
  lemma {:induction false} RFindLast(s: string, c: char)
    ensures NoChar(s[RFind(s, c) + 1..], c)
  {
    if s != [] && s[|s| - 1] != c {
      var t := s[..|s| - 1];
      RFindLast(t, c);
      var i := RFind(t, c);
      var tail, tail' := s[i + 1..], t[i + 1..];
      forall k | 0 <= k < |tail|
        ensures tail[k] != c
      {
        if k < |tail'| {
          assert tail[k] == tail'[k];
        }
      }
    }
  }

  /** An occurrence with no `c` after it is the one `RFind` finds. */
  lemma {:induction false} RFindAt(s: string, c: char, i: nat)
    requires i < |s| && s[i] == c && NoChar(s[i + 1..], c)
    ensures RFind(s, c) == i
  {
    if i < |s| - 1 {
      var t := s[..|s| - 1];
      var after := s[i + 1..];
      assert s[|s| - 1] == after[|after| - 1];
      assert t[i + 1..] == after[..|after| - 1];
      RFindAt(t, c, i);
    }
  }

  predicate IsAbs(p: string) { |p| > 0 && p[0] == '/' }

  /** `os.path.join(a, b)`: an absolute `b` replaces `a`. */
  function Join(a: string, b: string): (r: string)
    ensures IsAbs(b) ==> r == b
    ensures !IsAbs(b) && a != [] && a[|a| - 1] != '/' ==> r == a + "/" + b
  {
    if IsAbs(b) then b
    else if a == [] || a[|a| - 1] == '/' then a + b
    else a + "/" + b
  }

  /** `os.path.basename(p)`: everything after the last '/'. */
  function Basename(p: string): (r: string)
    ensures NoChar(r, '/')
    ensures EndsWith(p, r)
    ensures NoChar(p, '/') ==> r == p
  {
    RFindLast(p, '/');
    p[RFind(p, '/') + 1..]
  }

  /** `os.path.splitext(p)`: the extension starts at the last '.', unless
      every character of the last path segment before that dot is a dot too. */
  function SplitExt(p: string): (r: (string, string))
    ensures r.0 + r.1 == p
    ensures r.1 == [] || r.1[0] == '.'
  {
    var dot := ExtensionStart(p);
    (p[..dot], p[dot..])
  }

  /** Where the extension of `p` starts: its last '.' when that dot lies in
      the last segment and something other than dots precedes it there,
      otherwise the end of `p`. */
  function ExtensionStart(p: string): (i: int)
    ensures 0 <= i <= |p|
    ensures i < |p| ==> p[i] == '.'
  {
    var sep := RFind(p, '/');
    var dot := RFind(p, '.');
    if dot > sep && !OnlyDots(p[sep + 1..dot]) then dot else |p|
  }

  /** Whether every character is a '.'. */
  predicate OnlyDots(s: string)
  {
    s == [] || (s[0] == '.' && OnlyDots(s[1..]))
  }

  /** The file name without its extension, as `os.path.splitext(name)[0]`. */
  function Stem(p: string): string { SplitExt(p).0 }

  /** Python's `normpath` loop: drop empty and '.' components and let '..'
      cancel the component before it where there is one. */
  function Collapse(comps: seq<string>, absolute: bool): (r: seq<string>)
  {
    if comps == [] then []
    else
      var acc := Collapse(comps[..|comps| - 1], absolute);
      var c := comps[|comps| - 1];
      if c == "" || c == "." then acc
      else if c != ".." || (!absolute && acc == []) || (acc != [] && acc[|acc| - 1] == "..") then acc + [c]
      else if acc != [] then acc[..|acc| - 1]
      else acc
  }

  function LeadingSlashes(p: string): nat
  {
    if |p| >= 2 && p[..2] == "//" && !(|p| >= 3 && p[2] == '/') then 2
    else if IsAbs(p) then 1
    else 0
  }

  function Slashes(k: nat): string { if k == 0 then "" else Slashes(k - 1) + "/" }

  /** `os.path.normpath(p)`. */
  function NormPath(p: string): string
  {
    if p == [] then "."
    else
      var lead := LeadingSlashes(p);
      var comps := Collapse(Split(p, '/'), lead > 0);
      var body := if comps == [] then "" else JoinWith(comps, '/');
      var r := Slashes(lead) + body;
      if r == [] then "." else r
  }

  /** `os.path.abspath(p)`, with the working directory as a parameter. */
  function AbsPath(cwd: string, p: string): string
  {
    NormPath(if IsAbs(p) then p else Join(cwd, p))
  }

  /** Appending a separator and a field appends one field to the split. */
  lemma {:induction false} SplitSnoc(a: string, sep: char, b: string)
    requires NoChar(b, sep)
    ensures Split(a + [sep] + b, sep) == Split(a, sep) + [b]
  {
    if a == [] {
      assert [] + [sep] + b == [sep] + b;
      SplitNone(b, sep);
      assert ([sep] + b)[1..] == b;
    } else {
      var s := a + [sep] + b;
      assert s[1..] == a[1..] + [sep] + b;
      SplitSnoc(a[1..], sep, b);
    }
  }

  /** A last component that is a plain name survives normalisation as the last component. */
  lemma CollapseLast(comps: seq<string>, absolute: bool, n: string)
    requires n != "" && n != "." && n != ".."
    ensures var r := Collapse(comps + [n], absolute); r != [] && r[|r| - 1] == n
  {
    assert (comps + [n])[..|comps|] == comps;
  }

  /** The joined string ends with the last field, preceded by the separator
      when there is more than one field. */
  lemma {:induction false} JoinWithLast(fields: seq<string>, sep: char)
    requires |fields| >= 1
    ensures EndsWith(JoinWith(fields, sep), fields[|fields| - 1])
    ensures |fields| > 1 ==> EndsWith(JoinWith(fields, sep), [sep] + fields[|fields| - 1])
  {
    if |fields| > 1 {
      var rest := fields[1..];
      var last := fields[|fields| - 1];
      assert rest[|rest| - 1] == last;
      JoinWithLast(rest, sep);
      var tail := JoinWith(rest, sep);
      assert JoinWith(fields, sep) == (fields[0] + [sep]) + tail;
      if |rest| > 1 {
        SuffixExtends(fields[0] + [sep], tail, [sep] + last);
      } else {
        assert tail == last;
        assert JoinWith(fields, sep) == fields[0] + ([sep] + last);
        SuffixExtends(fields[0], [sep] + last, [sep] + last);
      }
      SuffixExtends(fields[0] + [sep], tail, last);
    }
  }

  /** A path ending in "/" + name, or equal to name, has basename name. */
  lemma BasenameOfSuffix(p: string, n: string)
    requires NoChar(n, '/')
    requires p == n || EndsWith(p, "/" + n)
    ensures Basename(p) == n
  {
    var i := RFind(p, '/');
    RFindLast(p, '/');
    if p != n {
      var k := |p| - |n| - 1;
      assert p[k..] == "/" + n;
      assert p[k + 1..] == p[k..][1..] == n;
      assert p[k] == '/';
      assert i == k;
    }
  }

  /** Normalising `dir/name` keeps `name` as the last segment when it is a plain name. */
  lemma NormPathBasename(dir: string, n: string)
    requires n != "" && n != "." && n != ".." && NoChar(n, '/')
    ensures Basename(NormPath(dir + "/" + n)) == n
  {
    var p := dir + "/" + n;
    assert p == dir + ['/'] + n;
    SplitSnoc(dir, '/', n);
    var lead := LeadingSlashes(p);
    CollapseLast(Split(dir, '/'), lead > 0, n);
    var comps := Collapse(Split(p, '/'), lead > 0);
    JoinedEnds(lead, comps, n);
    var r := Slashes(lead) + JoinWith(comps, '/');
    assert NormPath(p) == r;
    BasenameOfSuffix(r, n);
  }

  /** Leading slashes followed by fields ending in `n` end in "/n", or are `n`. */
  lemma JoinedEnds(lead: nat, comps: seq<string>, n: string)
    requires comps != [] && comps[|comps| - 1] == n
    ensures var r := Slashes(lead) + JoinWith(comps, '/');
            r == n || EndsWith(r, "/" + n)
  {
    var body := JoinWith(comps, '/');
    JoinWithLast(comps, '/');
    if |comps| > 1 {
      SuffixExtends(Slashes(lead), body, "/" + n);
    } else if lead > 0 {
      assert body == n;
      assert Slashes(lead) == Slashes(lead - 1) + "/";
      assert Slashes(lead) + body == Slashes(lead - 1) + ("/" + n);
      SuffixExtends(Slashes(lead - 1), "/" + n, "/" + n);
    }
  }

  lemma SuffixExtends(a: string, b: string, t: string)
    requires EndsWith(b, t)
    ensures EndsWith(a + b, t)
  {
    assert (a + b)[|a + b| - |t|..] == b[|b| - |t|..];
  }

  /** Joining a name without '/' onto any directory keeps the name as the basename. */
  lemma BasenameJoin(dir: string, n: string)
    requires NoChar(n, '/')
    ensures Basename(Join(dir, n)) == n
  {
    var p := Join(dir, n);
    if dir == [] {
      assert p == n;
    } else if dir[|dir| - 1] == '/' {
      assert p == dir + n;
      assert p[|p| - |n| - 1] == '/';
      assert p[|p| - |n| - 1..] == "/" + n;
      BasenameOfSuffix(p, n);
    } else {
      assert p == dir + ("/" + n);
      SuffixExtends(dir, "/" + n, "/" + n);
      SuffixExtends(dir + "/", n, n);
      assert p == (dir + "/") + n;
      BasenameOfSuffix(p, n);
    }
  }

  /** Joining onto a relative path and appending commute. */
  lemma JoinAppend(a: string, x: string, y: string)
    requires x != [] && !IsAbs(x)
    ensures Join(a, x + y) == Join(a, x) + y
  {
    assert (x + y)[0] == x[0];
  }

  /** Going up from a child returns to the cleaned-up directory. */
  lemma CollapseUp(comps: seq<string>, absolute: bool, n: string)
    requires n != "" && n != "." && n != ".."
    ensures Collapse(comps + [n] + [".."], absolute) == Collapse(comps, absolute)
  {
    var c2 := comps + [n] + [".."];
    assert c2[..|c2| - 1] == comps + [n];
    assert (comps + [n])[..|comps|] == comps;
  }

  /** Appending to a non-empty path that does not end with '/' keeps its leading slashes. */
  lemma LeadingSlashesExtend(d: string, t: string)
    requires d != [] && d[|d| - 1] != '/'
    requires t != [] && t[0] == '/'
    ensures LeadingSlashes(d + t) == LeadingSlashes(d)
  {
    var p := d + t;
    if |d| >= 3 {
      assert p[..2] == d[..2] && p[2] == d[2];
    } else if |d| == 2 {
      assert p[..2] == d;
      assert d != "//";
    } else {
      assert p[..2] == [d[0], '/'];
    }
  }

  /** `normpath(d/n/..)` is `normpath(d)` for a plain name `n`. */
  lemma NormPathUp(d: string, n: string)
    requires d != [] && d[|d| - 1] != '/'
    requires n != "" && n != "." && n != ".." && NoChar(n, '/')
    ensures NormPath(d + "/" + n + "/..") == NormPath(d)
  {
    var p := d + "/" + n + "/..";
    assert p == (d + ['/'] + n) + ['/'] + "..";
    SplitSnoc(d + ['/'] + n, '/', "..");
    SplitSnoc(d, '/', n);
    assert Split(p, '/') == Split(d, '/') + [n] + [".."];
    LeadingSlashesExtend(d, "/" + n + "/..");
    assert p == d + ("/" + n + "/..");
    CollapseUp(Split(d, '/'), LeadingSlashes(d) > 0, n);
  }

  /** The absolute form of `join(d/n, "..")` is that of `d`: the parent
      directory of `d/n`, whatever the working directory. */
  lemma AbsPathParent(cwd: string, d: string, n: string)
    requires d != [] && d[|d| - 1] != '/'
    requires n != "" && n != "." && n != ".." && NoChar(n, '/')
    ensures AbsPath(cwd, Join(d + "/" + n, "..")) == AbsPath(cwd, d)
  {
    var child := d + "/" + n;
    assert Join(child, "..") == d + "/" + n + "/..";
    if IsAbs(d) {
      NormPathUp(d, n);
    } else {
      var tail := "/" + n + "/..";
      assert d + "/" + n + "/.." == d + tail;
      JoinAppend(cwd, d, tail);
      var d' := Join(cwd, d);
      assert d'[|d'| - 1] == d[|d| - 1];
      assert d' + tail == d' + "/" + n + "/..";
      NormPathUp(d', n);
    }
  }
}
