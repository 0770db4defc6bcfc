/** The small part of Python's `str` and `posixpath` that the scanner relies on:
    lower-casing (ASCII only), `endswith`, the `in` substring test, and the
    `join` and `dirname` path operations on POSIX paths. */
module PyText {

  /** `c.lower()` restricted to ASCII letters; every other character is kept. */
  function LowerChar(c: char): char
  {
    if 'A' <= c <= 'Z' then (c as int - 'A' as int + 'a' as int) as char else c
  }

  /** `s.lower()`, character by character. */
  function Lower(s: string): (r: string)
    ensures |r| == |s|
  {
    seq(|s|, i requires 0 <= i < |s| => LowerChar(s[i]))
  }

  /** `s.endswith(suffix)` */
  predicate EndsWith(s: string, suffix: string)
  {
    |suffix| <= |s| && s[|s| - |suffix|..] == suffix
  }

  /** `sub in s`, scanning `s` from its first position. */
  predicate Contains(s: string, sub: string)
    decreases |s|
  {
    sub <= s || (s != [] && Contains(s[1..], sub))
  }

  /** `sub in s` holds exactly when some position of `s` starts a copy of `sub`. */
  lemma {:induction false} ContainsExact(s: string, sub: string)
    ensures Contains(s, sub) <==> exists i :: 0 <= i <= |s| && sub <= s[i..]
    decreases |s|
  {
    assert s[0..] == s;
    if s != [] {
      var rest := s[1..];
      ContainsExact(rest, sub);
      if Contains(rest, sub) {
        var i :| 0 <= i <= |rest| && sub <= rest[i..];
        assert rest[i..] == s[i + 1..];
      }
      if exists i :: 0 <= i <= |s| && sub <= s[i..] {
        var i :| 0 <= i <= |s| && sub <= s[i..];
        if i > 0 {
          assert rest[i - 1..] == s[i..];
        }
      }
    }
  }

  /** A text shorter than the keyword never contains it. */
  lemma {:induction false} ShortNeverContains(s: string, sub: string)
    requires |s| < |sub|
    ensures !Contains(s, sub)
    decreases |s|
  {
    if s != [] {
      ShortNeverContains(s[1..], sub);
    }
  }

  /** Lower-casing keeps suffixes: a suffix of `s` lower-cases to a suffix of `Lower(s)`. */
  lemma LowerKeepsSuffix(s: string, suffix: string)
    requires EndsWith(s, suffix)
    ensures EndsWith(Lower(s), Lower(suffix))
  {
    var k := |s| - |suffix|;
    forall i | 0 <= i < |suffix|
      ensures Lower(s)[k..][i] == Lower(suffix)[i]
    {
      assert s[k..][i] == suffix[i];
    }
  }

  /** A suffix of a suffix is a suffix. */
  lemma EndsWithTransitive(s: string, t: string, u: string)
    requires EndsWith(s, t) && EndsWith(t, u)
    ensures EndsWith(s, u)
  {
    var k := |s| - |t|;
    forall i | 0 <= i < |u|
      ensures s[|s| - |u|..][i] == u[i]
    {
      assert t[|t| - |u|..][i] == u[i];
      assert s[k..][|t| - |u| + i] == t[|t| - |u| + i];
    }
  }

  /** `posixpath.join(a, b)`: an absolute `b` replaces `a`; otherwise a single
      '/' separates them unless `a` is empty or already ends with one. */
  function Join(a: string, b: string): (r: string)
    ensures EndsWith(r, b)
  {
    if |b| > 0 && b[0] == '/' then b
    else if a == [] || a[|a| - 1] == '/' then a + b
    else a + "/" + b
  }

  /** `s.rfind('/') + 1`: the length of the longest prefix of `s` ending in '/'. */
  function AfterLastSlash(s: string): (n: nat)
    ensures n <= |s|
    ensures n > 0 ==> s[n - 1] == '/'
  {
    if s == [] then 0
    else if s[|s| - 1] == '/' then |s|
    else AfterLastSlash(s[..|s| - 1])
  }

  /** `s.rstrip('/')` */
  function TrimTrailingSlashes(s: string): (r: string)
    ensures r <= s
    ensures r == [] || r[|r| - 1] != '/'
  {
    if s != [] && s[|s| - 1] == '/' then TrimTrailingSlashes(s[..|s| - 1]) else s
  }

  predicate AllSlashes(s: string)
  {
    forall i :: 0 <= i < |s| ==> s[i] == '/'
  }

  /** `posixpath.dirname(p)`: everything before the last '/', with trailing
      slashes removed unless nothing but slashes is left. */
  function Dirname(p: string): (r: string)
    ensures r <= p
  {
    var head := p[..AfterLastSlash(p)];
    if head != [] && !AllSlashes(head) then TrimTrailingSlashes(head) else head
  }

  /** `s` contains no '/'. */
  predicate NoSlash(s: string)
  {
    forall k :: 0 <= k < |s| ==> s[k] != '/'
  }

  /** Appending text without a '/' leaves the last '/' where it was. */
  lemma {:induction false} AfterLastSlashSkips(s: string, t: string)
    requires NoSlash(t)
    ensures AfterLastSlash(s + t) == AfterLastSlash(s)
    decreases |t|
  {
    if t == [] {
      assert s + t == s;
    } else {
      var init := t[..|t| - 1];
      AfterLastSlashSkips(s, init);
      assert (s + t)[..|s + t| - 1] == s + init;
      assert (s + t)[|s + t| - 1] == t[|t| - 1];
    }
  }

  /** The directory name of a file name joined to a directory is that
      directory, when the directory does not end in '/' and the name holds
      no '/' (as for the names a directory listing yields). */
  lemma DirnameOfJoin(dir: string, name: string)
    requires dir == [] || dir[|dir| - 1] != '/'
    requires NoSlash(name)
    ensures Dirname(Join(dir, name)) == dir
  {
    if dir == [] {
      if name != [] {
        assert name[0] != '/';
      }
      AfterLastSlashSkips([], name);
      assert [] + name == name;
    } else {
      if name != [] {
        assert name[0] != '/';
      }
      var head := dir + "/";
      assert Join(dir, name) == head + name;
      AfterLastSlashSkips(head, name);
      assert AfterLastSlash(head) == |head|;
      assert (head + name)[..|head|] == head;
      assert !AllSlashes(head) by {
        assert head[|dir| - 1] != '/';
      }
      assert head[..|head| - 1] == dir;
      assert TrimTrailingSlashes(head) == TrimTrailingSlashes(dir);
      assert TrimTrailingSlashes(dir) == dir;
    }
  }
}
