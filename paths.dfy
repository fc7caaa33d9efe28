/**
 * The POSIX path functions the Python code calls: `os.path.basename`,
 * `os.path.splitext` and `os.path.join` with two arguments, as `posixpath`
 * defines them.
 */
module Paths {
  import opened Text

  /** `s.rfind(c)`: the index of the last `c` in `s`, or -1. */
  function RFind(s: string, c: char): (k: int)
    ensures -1 <= k < |s|
    ensures k >= 0 ==> s[k] == c
    ensures forall i :: k < i < |s| ==> s[i] != c
  {
    if s == [] then -1
    else if s[|s| - 1] == c then |s| - 1
    else RFind(s[..|s| - 1], c)
  }

  /** `os.path.basename(p)`: everything after the last '/'. */
  function Basename(p: string): string
  {
    p[RFind(p, '/') + 1..]
  }

  /** The basename is the final path component: a suffix of the path, with no '/' in it, preceded by '/' or nothing. */
  lemma BasenameIsLastComponent(p: string)
    ensures EndsWith(p, Basename(p))
    ensures '/' !in Basename(p)
    ensures |Basename(p)| == |p| || p[|p| - |Basename(p)| - 1] == '/'
  {
    var k := RFind(p, '/');
    assert forall i :: 0 <= i < |Basename(p)| ==> Basename(p)[i] == p[k + 1 + i];
  }

  predicate OnlyDots(s: string) { forall i :: 0 <= i < |s| ==> s[i] == '.' }

  /**
   * `os.path.splitext(p)`: the extension starts at the last '.', provided that
   * dot lies in the last component and something other than a dot precedes it
   * there (leading dots of a name do not start an extension).
   */
  function Splitext(p: string): (r: (string, string))
    ensures r.0 + r.1 == p
  {
    var sep := RFind(p, '/');
    var dot := RFind(p, '.');
    if dot > sep && !OnlyDots(p[sep + 1..dot]) then (p[..dot], p[dot..]) else (p, "")
  }

  function Ext(p: string): string { Splitext(p).1 }

  function Stem(p: string): string { Splitext(p).0 }

  /** An extension is empty or one '.' followed by text without '.' or '/'. */
  lemma ExtShape(p: string)
    ensures Ext(p) == "" || (Ext(p)[0] == '.' && '.' !in Ext(p)[1..] && '/' !in Ext(p))
  {
    var sep := RFind(p, '/');
    var dot := RFind(p, '.');
    if dot > sep && !OnlyDots(p[sep + 1..dot]) {
      var e := p[dot..];
      assert forall i :: 0 <= i < |e| ==> e[i] == p[dot + i];
    }
  }

  /** A dot in `name` that has a non-dot character somewhere before it. */
  predicate HasExtensionDot(name: string)
  {
    exists k, m :: 0 <= m < k < |name| && name[k] == '.' && name[m] != '.'
  }

  /**
   * The extension of a path is that of its last component, and it is
   * non-empty exactly when that component has a dot with a non-dot before it.
   */
  lemma {:induction false} ExtOfBasename(p: string)
    ensures Ext(p) == Ext(Basename(p))
    ensures Ext(p) != "" <==> HasExtensionDot(Basename(p))
  {
    BasenameIsLastComponent(p);
    ExtOfLastComponent(p);
    ExtOfName(Basename(p));
  }

  lemma {:induction false} ExtOfLastComponent(p: string)
    ensures Ext(p) == Ext(Basename(p))
  {
    var sep := RFind(p, '/');
    var dot := RFind(p, '.');
    var b := p[sep + 1..];
    RFindInSuffix(p, sep + 1, '/');
    RFindInSuffix(p, sep + 1, '.');
    if dot > sep {
      assert b[..dot - sep - 1] == p[sep + 1..dot];
      assert b[dot - sep - 1..] == p[dot..];
    }
  }

  /** Searching a suffix finds the last occurrence if it lies in the suffix, shifted; otherwise nothing. */
  lemma RFindInSuffix(s: string, start: nat, c: char)
    requires start <= |s|
    ensures RFind(s[start..], c) == if RFind(s, c) >= start then RFind(s, c) - start else -1
  {
    var t := s[start..];
    var k := RFind(s, c);
    assert forall i :: 0 <= i < |t| ==> t[i] == s[start + i];
    RFindCharacterised(t, c, if k >= start then k - start else -1);
  }

  /** A name without '/' has an extension exactly when it has a dot with a non-dot before it. */
  lemma {:induction false} ExtOfName(name: string)
    requires '/' !in name
    ensures Ext(name) != "" <==> HasExtensionDot(name)
  {
    RFindCharacterised(name, '/', -1);
    var d := RFind(name, '.');
    if d >= 0 {
      assert name[0..d] == name[..d];
      OnlyDotsBeforeLastDot(name, d);
    } else {
      assert forall k :: 0 <= k < |name| ==> name[k] != '.';
    }
  }

  /**
   * For the last dot of a name, at position `d`: the name has a dot preceded
   * by a non-dot exactly when the text before `d` is not all dots.
   */
  lemma {:induction false} OnlyDotsBeforeLastDot(name: string, d: nat)
    requires d < |name| && name[d] == '.'
    requires forall i :: d < i < |name| ==> name[i] != '.'
    ensures HasExtensionDot(name) <==> !OnlyDots(name[..d])
  {
    if !OnlyDots(name[..d]) {
      var m :| 0 <= m < d && name[..d][m] != '.';
      assert name[m] != '.' && name[d] == '.';
    } else {
      forall k, m | 0 <= m < k < |name| && name[k] == '.' ensures name[m] == '.' {
        assert k <= d;
        assert name[..d][m] == '.';
      }
    }
  }

  /** Any index with `c` there and none after is the one `RFind` returns. */
  lemma RFindCharacterised(s: string, c: char, k: int)
    requires -1 <= k < |s|
    requires k >= 0 ==> s[k] == c
    requires forall i :: k < i < |s| ==> s[i] != c
    ensures RFind(s, c) == k
  {
  }

  /** `os.path.join(a, b)`: an absolute `b` replaces `a`; otherwise one '/' separates them unless `a` is empty or already ends in '/'. */
  function Join(a: string, b: string): (r: string)
    ensures EndsWith(r, b)
  {
    if StartsWith(b, "/") then b
    else if a == [] || EndsWith(a, "/") then a + b
    else a + "/" + b
  }

  /** Joining a directory and a plain name gives a path whose last component is that name. */
  lemma JoinBasename(a: string, b: string)
    requires '/' !in b
    ensures Basename(Join(a, b)) == b
  {
    var r := Join(a, b);
    var n := |r| - |b|;
    assert r[n..] == b;
    assert r == r[..n] + b;
    assert n == 0 || r[n - 1] == '/';
    RFindCharacterised(r, '/', n - 1);
  }
}
