/**
 * slugify from the Piper text-to-speech batch tool: turns a line of text into
 * the stem of the file name its audio is written to. The chain is: strip
 * surrounding whitespace, lowercase, spell `&` as ` dan ` (Indonesian "and"),
 * replace every run of characters outside [a-z0-9] with one `_`, squeeze
 * runs of `_`, trim `_` from both ends, and fall back to "line" when nothing
 * is left.
 */
module Slug {

  // ---------------------------------------------------------------------------
  // Character classes
  // ---------------------------------------------------------------------------

  /**
   * The characters Python's str.isspace accepts, which str.strip() removes:
   * U+0009..U+000D, U+001C..U+0020, U+0085, U+00A0, U+1680, U+2000..U+200A,
   * U+2028, U+2029, U+202F, U+205F and U+3000.
   */
  predicate IsSpace(c: char)
  {
    || ('\U{0009}' <= c <= '\U{000D}')
    || ('\U{001C}' <= c <= '\U{0020}')
    || c == '\U{0085}' || c == '\U{00A0}' || c == '\U{1680}'
    || ('\U{2000}' <= c <= '\U{200A}')
    || c == '\U{2028}' || c == '\U{2029}' || c == '\U{202F}' || c == '\U{205F}' || c == '\U{3000}'
  }

  predicate IsUnderscore(c: char)
  {
    c == '_'
  }

  /** A character of the class [a-z0-9]. */
  predicate IsAlnum(c: char)
  {
    ('a' <= c <= 'z') || ('0' <= c <= '9')
  }

  /** Every character is in [a-z0-9]. */
  predicate AllAlnum(t: string)
  {
    forall i :: 0 <= i < |t| ==> IsAlnum(t[i])
  }

  /** A character a slug may contain: [a-z0-9_]. */
  predicate IsSlugChar(c: char)
  {
    IsAlnum(c) || c == '_'
  }

  predicate AllSlugChars(t: string)
  {
    forall i :: 0 <= i < |t| ==> IsSlugChar(t[i])
  }

  /** No `_` is directly followed by another `_`. */
  predicate NoDoubleUnderscore(t: string)
  {
    forall i :: 0 <= i < |t| - 1 ==> !(t[i] == '_' && t[i + 1] == '_')
  }

  /**
   * What slugify promises of its result: non-empty, drawn from [a-z0-9_],
   * neither starting nor ending with `_`, and with no `__`.
   */
  predicate IsSlug(t: string)
  {
    && t != []
    && AllSlugChars(t)
    && t[0] != '_' && t[|t| - 1] != '_'
    && NoDoubleUnderscore(t)
  }

  // ---------------------------------------------------------------------------
  // The stages
  // ---------------------------------------------------------------------------

  /** Every character of s from index lo to just before hi is one that drop accepts. */
  predicate AllDropped(s: string, lo: nat, hi: nat, drop: char -> bool)
    requires lo <= hi <= |s|
  {
    forall i :: lo <= i < hi ==> drop(s[i])
  }

  /** s without its leading characters that drop accepts: what is removed is exactly that run. */
  function TrimLeft(s: string, drop: char -> bool): (r: string)
    ensures |r| <= |s| && r == s[|s| - |r|..]
    ensures AllDropped(s, 0, |s| - |r|, drop)
    ensures r != [] ==> !drop(r[0])
  {
    if s != [] && drop(s[0]) then
      var r := TrimLeft(s[1..], drop);
      assert s[1..][|s| - 1 - |r|..] == s[|s| - |r|..];
      assert AllDropped(s, 0, |s| - |r|, drop) by {
        forall i | 0 <= i < |s| - |r| ensures drop(s[i]) {
          if i > 0 {
            assert s[i] == s[1..][i - 1];
          }
        }
      }
      r
    else s
  }

  /** s without its trailing characters that drop accepts: what is removed is exactly that run. */
  function TrimRight(s: string, drop: char -> bool): (r: string)
    ensures |r| <= |s| && r == s[..|r|]
    ensures AllDropped(s, |r|, |s|, drop)
    ensures r != [] ==> !drop(r[|r| - 1])
  {
    if s != [] && drop(s[|s| - 1]) then
      var r := TrimRight(s[..|s| - 1], drop);
      assert s[..|s| - 1][..|r|] == s[..|r|];
      assert AllDropped(s, |r|, |s|, drop) by {
        forall i | |r| <= i < |s| ensures drop(s[i]) {
          if i < |s| - 1 {
            assert s[i] == s[..|s| - 1][i];
          }
        }
      }
      r
    else s
  }

  /**
   * Python's s.strip(chars): the slice of s left once the leading and the
   * trailing run of characters drop accepts are removed.
   */
  function Trim(s: string, drop: char -> bool): (r: string)
    ensures r != [] ==> !drop(r[0]) && !drop(r[|r| - 1])
    ensures exists a, b :: 0 <= a <= b <= |s| && r == s[a..b] &&
                           AllDropped(s, 0, a, drop) && AllDropped(s, b, |s|, drop)
  {
    var l := TrimLeft(s, drop);
    var r := TrimRight(l, drop);
    TrimBoth(s, l, r, drop);
    r
  }

  /** A prefix of a suffix of s is a slice of s, and what the prefix leaves of the suffix ends s. */
  lemma TrimBoth(s: string, l: string, r: string, drop: char -> bool)
    requires |l| <= |s| && l == s[|s| - |l|..] && AllDropped(s, 0, |s| - |l|, drop)
    requires |r| <= |l| && r == l[..|r|] && AllDropped(l, |r|, |l|, drop)
    ensures r == s[|s| - |l|..|s| - |l| + |r|]
    ensures AllDropped(s, |s| - |l| + |r|, |s|, drop)
  {
    var a := |s| - |l|;
    forall i | a + |r| <= i < |s| ensures drop(s[i]) {
      assert s[i] == l[i - a];
    }
  }

  /** str.lower() on ASCII letters; every other character is kept. */
  function LowerChar(c: char): char
  {
    if 'A' <= c <= 'Z' then (c as int + 32) as char else c
  }

  /** An ASCII letter of either case or an ASCII digit. */
  predicate IsAsciiAlnum(c: char)
  {
    ('a' <= c <= 'z') || ('A' <= c <= 'Z') || ('0' <= c <= '9')
  }

  /**
   * str.lower(): no uppercase ASCII letter is left, each one becomes the
   * letter 32 code points above it, and every other character is kept. So a
   * character of the result is in [a-z0-9] exactly when the input character
   * was an ASCII letter or digit.
   */
  function Lower(s: string): (r: string)
    ensures |r| == |s|
    ensures forall i :: 0 <= i < |r| ==> !('A' <= r[i] <= 'Z')
    ensures forall i :: 0 <= i < |s| && !('A' <= s[i] <= 'Z') ==> r[i] == s[i]
    ensures forall i :: 0 <= i < |s| && 'A' <= s[i] <= 'Z' ==> r[i] as int == s[i] as int + 32
    ensures forall i :: 0 <= i < |s| ==> (IsAlnum(r[i]) <==> IsAsciiAlnum(s[i]))
  {
    seq(|s|, i requires 0 <= i < |s| => LowerChar(s[i]))
  }

  /** s.replace("&", " dan "): no `&` is left. */
  function ReplaceAmp(s: string): (r: string)
    ensures NoAmp(r)
  {
    if s == [] then []
    else
      var p := if s[0] == '&' then " dan " else [s[0]];
      var rest := ReplaceAmp(s[1..]);
      assert NoAmp(p + rest) by {
        forall i | 0 <= i < |p + rest| ensures (p + rest)[i] != '&' {
          if i >= |p| {
            assert (p + rest)[i] == rest[i - |p|];
          }
        }
      }
      p + rest
  }

  /** None of the first n characters of s is in [a-z0-9]. */
  predicate NoAlnumBefore(s: string, n: nat)
    requires n <= |s|
  {
    forall i :: 0 <= i < n ==> !IsAlnum(s[i])
  }

  /** s with its leading run of characters outside [a-z0-9] removed, and nothing else. */
  function SkipNonAlnum(s: string): (r: string)
    ensures |r| <= |s| && r == s[|s| - |r|..]
    ensures NoAlnumBefore(s, |s| - |r|)
    ensures r != [] ==> IsAlnum(r[0])
  {
    if s != [] && !IsAlnum(s[0]) then
      var r := SkipNonAlnum(s[1..]);
      assert s[1..][|s| - 1 - |r|..] == s[|s| - |r|..];
      assert NoAlnumBefore(s, |s| - |r|) by {
        forall i | 0 <= i < |s| - |r| ensures !IsAlnum(s[i]) {
          if i > 0 {
            assert s[i] == s[1..][i - 1];
          }
        }
      }
      r
    else s
  }

  /**
   * re.sub(r"[^a-z0-9]+", "_", s): scanning left to right, every maximal run
   * of characters outside [a-z0-9] becomes one `_`. The result is drawn from
   * [a-z0-9_], has no `__`, and starts with s's first character when that is
   * alphanumeric.
   */
  function Collapse(s: string): (r: string)
    ensures AllSlugChars(r)
    ensures NoDoubleUnderscore(r)
    ensures s != [] && IsAlnum(s[0]) ==> r != [] && r[0] == s[0]
    decreases |s|
  {
    if s == [] then []
    else if IsAlnum(s[0]) then [s[0]] + Collapse(s[1..])
    else "_" + Collapse(SkipNonAlnum(s[1..]))
  }

  /**
   * re.sub(r"_+", "_", s): every maximal run of `_` becomes one `_`. The
   * result has no `__` and starts with s's first character.
   */
  function Squash(s: string): (r: string)
    ensures NoDoubleUnderscore(r)
    ensures s != [] ==> r != [] && r[0] == s[0]
    decreases |s|
  {
    if s == [] then []
    else if s[0] == '_' then
      var rest := Squash(TrimLeft(s[1..], IsUnderscore));
      ConsNoDouble('_', rest);
      "_" + rest
    else
      var rest := Squash(s[1..]);
      ConsNoDouble(s[0], rest);
      [s[0]] + rest
  }

  /** Putting c in front of a text without `__` keeps it so, unless c and the text's first character are both `_`. */
  lemma ConsNoDouble(c: char, t: string)
    requires NoDoubleUnderscore(t) && (c == '_' ==> t == [] || t[0] != '_')
    ensures NoDoubleUnderscore([c] + t)
  {
    var u := [c] + t;
    forall i | 0 <= i < |u| - 1 ensures !(u[i] == '_' && u[i + 1] == '_') {
      if i > 0 {
        assert u[i] == t[i - 1] && u[i + 1] == t[i];
      }
    }
  }

  /** slugify: never empty, since an empty slug falls back to "line". */
  function Slugify(s: string): (r: string)
    ensures r != []
  {
    var t := Trim(Squash(Collapse(ReplaceAmp(Lower(Trim(s, IsSpace))))), IsUnderscore);
    if t == [] then "line" else t
  }

  // ---------------------------------------------------------------------------
  // What slugify promises
  // ---------------------------------------------------------------------------

  /** Every slice of a text drawn from [a-z0-9_] without `__` is one too. */
  lemma SliceKeeps(t: string, a: nat, b: nat)
    requires a <= b <= |t| && AllSlugChars(t) && NoDoubleUnderscore(t)
    ensures AllSlugChars(t[a..b]) && NoDoubleUnderscore(t[a..b])
  {
    var u := t[a..b];
    forall i | 0 <= i < |u| - 1 ensures !(u[i] == '_' && u[i + 1] == '_') {
      assert u[i] == t[a + i] && u[i + 1] == t[a + i + 1];
    }
  }

  /** The `_+` substitution leaves a text without `__` unchanged. */
  lemma {:induction false} SquashKeeps(t: string)
    requires NoDoubleUnderscore(t)
    ensures Squash(t) == t
    decreases |t|
  {
    if t != [] {
      var rest := t[1..];
      NoDoubleTail(t);
      SquashKeeps(rest);
      if t[0] == '_' {
        assert rest == [] || rest[0] != '_';
        calc {
          Squash(t);
          "_" + Squash(TrimLeft(rest, IsUnderscore));
          { TrimLeftKeeps(rest, IsUnderscore); }
          "_" + Squash(rest);
          [t[0]] + rest;
        }
      } else {
        assert Squash(t) == [t[0]] + Squash(rest);
      }
    }
  }

  /** Dropping the first character of a text without `__` keeps it so. */
  lemma NoDoubleTail(t: string)
    requires t != [] && NoDoubleUnderscore(t)
    ensures NoDoubleUnderscore(t[1..])
  {
    var rest := t[1..];
    forall i | 0 <= i < |rest| - 1 ensures !(rest[i] == '_' && rest[i + 1] == '_') {
      assert rest[i] == t[i + 1] && rest[i + 1] == t[i + 2];
    }
  }

  /** Nothing is trimmed from the left of a text whose first character is kept. */
  lemma TrimLeftKeeps(s: string, drop: char -> bool)
    requires s == [] || !drop(s[0])
    ensures TrimLeft(s, drop) == s
  {
  }

  /** Trimming `_` off a text of slug characters without `__` leaves a slug, unless nothing is left. */
  lemma TrimmedIsSlug(c: string)
    requires AllSlugChars(c) && NoDoubleUnderscore(c)
    ensures var t := Trim(c, IsUnderscore); t == [] || IsSlug(t)
  {
    var t := Trim(c, IsUnderscore);
    var a, b :| 0 <= a <= b <= |c| && t == c[a..b];
    SliceKeeps(c, a, b);
  }

  /** slugify always returns a slug: non-empty, [a-z0-9_] only, no edge `_`, no `__`. */
  lemma SlugifyIsSlug(s: string)
    ensures IsSlug(Slugify(s))
  {
    var c := Collapse(ReplaceAmp(Lower(Trim(s, IsSpace))));
    SquashKeeps(c);
    TrimmedIsSlug(c);
    LineIsSlug();
  }

  /** The fallback name is a slug. */
  lemma LineIsSlug()
    ensures IsSlug("line")
  {
    var t := "line";
    assert t[0] == 'l' && t[1] == 'i' && t[2] == 'n' && t[3] == 'e';
  }

  /** Trimming leaves a text alone whose end characters drop rejects. */
  lemma TrimKeeps(s: string, drop: char -> bool)
    requires s != [] ==> !drop(s[0]) && !drop(s[|s| - 1])
    ensures Trim(s, drop) == s
  {
  }

  lemma {:induction false} LowerKeeps(s: string)
    requires forall i :: 0 <= i < |s| ==> !('A' <= s[i] <= 'Z')
    ensures Lower(s) == s
  {
  }

  predicate NoAmp(t: string)
  {
    forall i :: 0 <= i < |t| ==> t[i] != '&'
  }

  /** Lowercasing works piece by piece. */
  lemma LowerAppend(a: string, b: string)
    ensures Lower(a + b) == Lower(a) + Lower(b)
  {
    var l, r := Lower(a + b), Lower(a) + Lower(b);
    forall i | 0 <= i < |l| ensures l[i] == r[i] {
      if i < |a| {
        assert (a + b)[i] == a[i];
      } else {
        assert (a + b)[i] == b[i - |a|];
      }
    }
  }

  /** Text without `&` goes through the replacement unchanged. */
  lemma {:induction false} ReplaceAmpKeeps(s: string)
    requires NoAmp(s)
    ensures ReplaceAmp(s) == s
  {
    if s != [] {
      ReplaceAmpKeeps(s[1..]);
    }
  }

  /** The run substitution leaves text drawn from [a-z0-9_] without `__` unchanged. */
  lemma {:induction false} CollapseKeeps(t: string)
    requires AllSlugChars(t) && NoDoubleUnderscore(t)
    ensures Collapse(t) == t
  {
    CollapseByCharacter(t);
    RunsKeeps(t, false);
  }

  /** Every slug is its own slug. */
  lemma SlugKeeps(t: string)
    requires IsSlug(t)
    ensures Slugify(t) == t
  {
    assert forall i :: 0 <= i < |t| ==> t[i] != '&' && !('A' <= t[i] <= 'Z') by {
      forall i | 0 <= i < |t| ensures t[i] != '&' && !('A' <= t[i] <= 'Z') {
        assert IsSlugChar(t[i]);
      }
    }
    StripKeeps(t);
    LowerKeeps(t);
    ReplaceAmpKeeps(t);
    CollapseKeeps(t);
    SquashKeeps(t);
    TrimKeeps(t, IsUnderscore);
  }

  /** A slug has no surrounding whitespace to strip. */
  lemma StripKeeps(t: string)
    requires IsSlug(t)
    ensures Trim(t, IsSpace) == t
  {
    SlugCharNotSpace(t[0]);
    SlugCharNotSpace(t[|t| - 1]);
    TrimKeeps(t, IsSpace);
  }

  lemma SlugCharNotSpace(c: char)
    requires IsSlugChar(c)
    ensures !IsSpace(c)
  {
  }

  /** The texts slugify leaves unchanged are exactly the slugs. */
  lemma SlugifyFixedPoints(t: string)
    ensures Slugify(t) == t <==> IsSlug(t)
  {
    SlugifyIsSlug(t);
    if IsSlug(t) {
      SlugKeeps(t);
    }
  }

  /** slugify is idempotent. */
  lemma SlugifyIdempotent(s: string)
    ensures Slugify(Slugify(s)) == Slugify(s)
  {
    SlugifyIsSlug(s);
    SlugKeeps(Slugify(s));
  }

  // ---------------------------------------------------------------------------
  // What the run substitution means
  // ---------------------------------------------------------------------------

  /**
   * The run substitution read one character at a time: a character of
   * [a-z0-9] is copied, the first character of a run of others writes `_`,
   * and the rest of that run writes nothing. inRun says whether the previous
   * character was outside [a-z0-9].
   */
  function Runs(s: string, inRun: bool): string
  {
    if s == [] then []
    else if IsAlnum(s[0]) then [s[0]] + Runs(s[1..], false)
    else (if inRun then [] else "_") + Runs(s[1..], true)
  }

  /** Inside a run, the rest of the run writes nothing. */
  lemma {:induction false} RunsSkip(t: string)
    ensures Runs(t, true) == Runs(SkipNonAlnum(t), false)
  {
    if t != [] && !IsAlnum(t[0]) {
      RunsSkip(t[1..]);
      assert Runs(t, true) == [] + Runs(t[1..], true);
    }
  }

  /** The run substitution agrees with its one-character-at-a-time reading. */
  lemma {:induction false} CollapseByCharacter(s: string)
    ensures Collapse(s) == Runs(s, false)
    decreases |s|
  {
    if s != [] {
      if IsAlnum(s[0]) {
        CollapseByCharacter(s[1..]);
      } else {
        CollapseByCharacter(SkipNonAlnum(s[1..]));
        RunsSkip(s[1..]);
      }
    }
  }

  /**
   * The `_+` substitution read one character at a time: `s[i]` is kept
   * unless it and `s[i-1]` are both `_`. afterUnderscore says whether the
   * previous character was `_`.
   */
  function Squeezed(s: string, afterUnderscore: bool): string
  {
    if s == [] then []
    else if s[0] == '_' then (if afterUnderscore then [] else "_") + Squeezed(s[1..], true)
    else [s[0]] + Squeezed(s[1..], false)
  }

  /** After an `_`, the rest of the run of `_` writes nothing. */
  lemma {:induction false} SqueezedSkip(t: string)
    ensures Squeezed(t, true) == Squeezed(TrimLeft(t, IsUnderscore), false)
  {
    if t != [] && t[0] == '_' {
      SqueezedSkip(t[1..]);
      assert Squeezed(t, true) == [] + Squeezed(t[1..], true);
    }
  }

  /** The `_+` substitution agrees with its one-character-at-a-time reading. */
  lemma {:induction false} SquashByCharacter(s: string)
    ensures Squash(s) == Squeezed(s, false)
    decreases |s|
  {
    if s != [] {
      if s[0] == '_' {
        SquashByCharacter(TrimLeft(s[1..], IsUnderscore));
        SqueezedSkip(s[1..]);
      } else {
        SquashByCharacter(s[1..]);
      }
    }
  }

  /** A character of [a-z0-9] is copied and ends any run. */
  lemma RunsCons(c: char, t: string, inRun: bool)
    requires IsAlnum(c)
    ensures Runs([c] + t, inRun) == [c] + Runs(t, false)
  {
    assert ([c] + t)[0] == c && ([c] + t)[1..] == t;
  }

  /** A leading word of [a-z0-9] is copied and ends any run. */
  lemma {:induction false} RunsAlnumPrefix(x: string, rest: string, inRun: bool)
    requires x != [] && AllAlnum(x)
    ensures Runs(x + rest, inRun) == x + Runs(rest, false)
    decreases |x|
  {
    assert x + rest == [x[0]] + (x[1..] + rest);
    RunsCons(x[0], x[1..] + rest, inRun);
    if |x| == 1 {
      assert x[1..] + rest == rest && [x[0]] == x;
    } else {
      assert AllAlnum(x[1..]);
      RunsAlnumPrefix(x[1..], rest, false);
      assert [x[0]] + (x[1..] + Runs(rest, false)) == x + Runs(rest, false);
    }
  }

  /** Text drawn from [a-z0-9_] without `__` is copied, provided it does not continue a run with `_`. */
  lemma {:induction false} RunsKeeps(t: string, inRun: bool)
    requires AllSlugChars(t) && NoDoubleUnderscore(t)
    requires inRun ==> t == [] || t[0] != '_'
    ensures Runs(t, inRun) == t
    decreases |t|
  {
    if t != [] {
      var rest := t[1..];
      SliceKeeps(t, 1, |t|);
      assert IsSlugChar(t[0]);
      if IsAlnum(t[0]) {
        RunsKeeps(rest, false);
        assert Runs(t, inRun) == [t[0]] + rest;
      } else {
        assert rest == [] || rest[0] != '_';
        RunsKeeps(rest, true);
        assert Runs(t, inRun) == "_" + rest;
      }
    }
  }

  /** A run of characters outside [a-z0-9] writes one `_`, or nothing when it continues a run. */
  lemma {:induction false} RunsNoAlnum(t: string, inRun: bool)
    requires t != [] && forall i :: 0 <= i < |t| ==> !IsAlnum(t[i])
    ensures Runs(t, inRun) == if inRun then [] else "_"
    decreases |t|
  {
    var rest := t[1..];
    assert !IsAlnum(t[0]);
    if rest == [] {
      assert Runs(t, inRun) == (if inRun then [] else "_") + Runs([], true);
    } else {
      assert forall i :: 0 <= i < |rest| ==> !IsAlnum(rest[i]) by {
        forall i | 0 <= i < |rest| ensures !IsAlnum(rest[i]) {
          assert rest[i] == t[i + 1];
        }
      }
      RunsNoAlnum(rest, true);
    }
  }

  /** The characters of s in [a-z0-9], in order. */
  function Alnums(s: string): (r: string)
    ensures AllAlnum(r) && |r| <= |s|
  {
    if s == [] then []
    else (if IsAlnum(s[0]) then [s[0]] else []) + Alnums(s[1..])
  }

  /** Filtering works piece by piece. */
  lemma {:induction false} AlnumsAppend(a: string, b: string)
    ensures Alnums(a + b) == Alnums(a) + Alnums(b)
    decreases |a|
  {
    if a != [] {
      assert (a + b)[0] == a[0] && (a + b)[1..] == a[1..] + b;
      AlnumsAppend(a[1..], b);
      var p := if IsAlnum(a[0]) then [a[0]] else [];
      calc {
        Alnums(a + b);
        p + Alnums(a[1..] + b);
        p + (Alnums(a[1..]) + Alnums(b));
        (p + Alnums(a[1..])) + Alnums(b);
      }
    } else {
      assert a + b == b;
    }
  }

  /** A run of characters outside [a-z0-9] holds none of them. */
  lemma {:induction false} AlnumsSkip(t: string)
    ensures Alnums(SkipNonAlnum(t)) == Alnums(t)
  {
    if t != [] && !IsAlnum(t[0]) {
      AlnumsSkip(t[1..]);
    }
  }

  /** The run substitution keeps every character of [a-z0-9], in order, and no other. */
  lemma {:induction false} CollapseAlnums(s: string)
    ensures Alnums(Collapse(s)) == Alnums(s)
    decreases |s|
  {
    if s != [] {
      if IsAlnum(s[0]) {
        CollapseAlnums(s[1..]);
        AlnumsAppend([s[0]], Collapse(s[1..]));
      } else {
        CollapseAlnums(SkipNonAlnum(s[1..]));
        AlnumsSkip(s[1..]);
        AlnumsAppend("_", Collapse(SkipNonAlnum(s[1..])));
        assert Alnums("_") == [];
      }
    }
  }

  // ---------------------------------------------------------------------------
  // The fallback and the `&` spelling
  // ---------------------------------------------------------------------------

  /** An ASCII letter or digit is neither whitespace nor `&`. */
  lemma LowerAlnumChar(c: char)
    requires IsAsciiAlnum(c)
    ensures !IsSpace(c) && c != '&'
  {
  }

  /** A character that is no ASCII letter or digit is left alone by lowercasing and is outside [a-z0-9]. */
  lemma NonAlnumChar(c: char)
    requires !IsAsciiAlnum(c)
    ensures LowerChar(c) == c && !IsAlnum(c)
  {
  }

  /** Text holding no letter, digit or `&` slugifies to the fallback "line". */
  lemma NoAlnumGivesLine(s: string)
    requires forall i :: 0 <= i < |s| ==> !IsAsciiAlnum(s[i]) && s[i] != '&'
    ensures Slugify(s) == "line"
  {
    var st := Trim(s, IsSpace);
    InertTrim(s, st);
    InertStages(st);
  }

  /** No ASCII letter, digit or `&` anywhere in t. */
  predicate Inert(t: string)
  {
    forall i :: 0 <= i < |t| ==> !IsAsciiAlnum(t[i]) && t[i] != '&'
  }

  /** Stripping whitespace keeps text inert. */
  lemma InertTrim(s: string, st: string)
    requires Inert(s) && st == Trim(s, IsSpace)
    ensures Inert(st)
  {
    var a, b :| 0 <= a <= b <= |s| && st == s[a..b];
    InertSlice(s, a, b);
  }

  /** Every slice of inert text is inert. */
  lemma InertSlice(s: string, a: nat, b: nat)
    requires Inert(s) && a <= b <= |s|
    ensures Inert(s[a..b])
  {
    forall i | 0 <= i < b - a ensures !IsAsciiAlnum(s[a..b][i]) && s[a..b][i] != '&' {
      assert s[a..b][i] == s[a + i];
    }
  }

  /** Inert text goes unchanged through lowercasing and the `&` spelling, and then vanishes. */
  lemma InertStages(st: string)
    requires Inert(st)
    ensures Trim(Squash(Collapse(ReplaceAmp(Lower(st)))), IsUnderscore) == []
  {
    forall i | 0 <= i < |st| ensures !IsAlnum(st[i]) && st[i] != '&' && LowerChar(st[i]) == st[i] {
      NonAlnumChar(st[i]);
    }
    LowerKeeps(st);
    ReplaceAmpKeeps(st);
    CollapseNoAlnum(st);
  }

  /** With no character of [a-z0-9] the run substitution leaves at most one `_`, which trimming removes. */
  lemma CollapseNoAlnum(t: string)
    requires forall i :: 0 <= i < |t| ==> !IsAlnum(t[i])
    ensures Trim(Squash(Collapse(t)), IsUnderscore) == []
  {
    if t != [] {
      CollapseByCharacter(t);
      RunsNoAlnum(t, false);
      assert Collapse(t) == "_";
      UnderscoreVanishes();
    }
  }

  /** A lone `_` is squeezed to itself and then trimmed away. */
  lemma UnderscoreVanishes()
    ensures Trim(Squash("_"), IsUnderscore) == []
  {
    var u := "_";
    assert u[0] == '_' && u[1..] == [];
    assert TrimLeft(u[1..], IsUnderscore) == [];
    assert Squash(u) == u;
    assert TrimLeft(u, IsUnderscore) == [];
  }

  /** s.replace works piece by piece. */
  lemma {:induction false} ReplaceAmpAppend(a: string, b: string)
    ensures ReplaceAmp(a + b) == ReplaceAmp(a) + ReplaceAmp(b)
    decreases |a|
  {
    if a != [] {
      assert (a + b)[0] == a[0] && (a + b)[1..] == a[1..] + b;
      ReplaceAmpAppend(a[1..], b);
      var p := if a[0] == '&' then " dan " else [a[0]];
      calc {
        ReplaceAmp(a + b);
        p + ReplaceAmp(a[1..] + b);
        p + (ReplaceAmp(a[1..]) + ReplaceAmp(b));
        (p + ReplaceAmp(a[1..])) + ReplaceAmp(b);
      }
    } else {
      assert a + b == b;
    }
  }

  /** A leading run of [a-z0-9] goes through the run substitution unchanged. */
  lemma CollapseAlnumPrefix(x: string, rest: string)
    requires AllAlnum(x)
    ensures Collapse(x + rest) == x + Collapse(rest)
  {
    if x == [] {
      assert x + rest == rest;
    } else {
      CollapseByCharacter(x + rest);
      CollapseByCharacter(rest);
      RunsAlnumPrefix(x, rest, false);
    }
  }

  /** Once the substitutions have produced a slug, squeezing and trimming keep it. */
  lemma SlugAfterCollapse(s: string, t: string)
    requires IsSlug(t) && Collapse(ReplaceAmp(Lower(Trim(s, IsSpace)))) == t
    ensures Slugify(s) == t
  {
    SquashKeeps(t);
    TrimKeeps(t, IsUnderscore);
  }

  /** Words without `&` around one `&`: only the `&` is spelled out. */
  lemma ReplaceAmpBetween(lx: string, ly: string)
    requires NoAmp(lx) && NoAmp(ly)
    ensures ReplaceAmp(lx + "&" + ly) == lx + (" dan " + ly)
  {
    calc {
      ReplaceAmp(lx + "&" + ly);
      { ReplaceAmpAppend(lx + "&", ly); }
      ReplaceAmp(lx + "&") + ReplaceAmp(ly);
      { ReplaceAmpAppend(lx, "&"); }
      ReplaceAmp(lx) + ReplaceAmp("&") + ReplaceAmp(ly);
      { ReplaceAmpKeeps(lx); ReplaceAmpKeeps(ly); AmpSpelledOut(); }
      lx + " dan " + ly;
      lx + (" dan " + ly);
    }
  }

  /** A lone `&` is spelled out. */
  lemma AmpSpelledOut()
    ensures ReplaceAmp("&") == " dan "
  {
    var a := "&";
    assert a[0] == '&' && a[1..] == [];
    assert ReplaceAmp(a) == " dan " + ReplaceAmp([]);
  }

  /** The spelled-out `&` in front of a word becomes `_dan_`. */
  lemma CollapseDan(ly: string)
    requires ly != [] && AllAlnum(ly)
    ensures Collapse(" dan " + ly) == "_dan_" + ly
  {
    var r1 := " " + ly;
    var r2 := "dan" + r1;
    var r3 := " " + r2;
    DanGlue([], ly);
    assert r3 == " dan " + ly;
    assert r3[1..] == r2 && r2[0] == 'd' && r1[1..] == ly;
    assert SkipNonAlnum(r2) == r2;
    AlnumFacts(ly);
    CollapseKeeps(ly);
    assert SkipNonAlnum(ly) == ly;
    DanIsAlnum();
    CollapseAlnumPrefix("dan", r1);
    calc {
      Collapse(" dan " + ly);
      Collapse(r3);
      "_" + ("dan" + ("_" + ly));
      { DanGlue([], ly); assert [] + "_dan_" + ly == "_dan_" + ly; }
      "_dan_" + ly;
    }
  }

  /** Lowercase words around `&`, after both substitutions. */
  lemma AmpCollapse(lx: string, ly: string)
    requires lx != [] && ly != [] && AllAlnum(lx) && AllAlnum(ly)
    ensures Collapse(ReplaceAmp(lx + "&" + ly)) == lx + "_dan_" + ly
  {
    AlnumFacts(lx);
    AlnumFacts(ly);
    ReplaceAmpBetween(lx, ly);
    CollapseAlnumPrefix(lx, " dan " + ly);
    CollapseDan(ly);
    DanGlue(lx, ly);
  }

  lemma DanIsAlnum()
    ensures AllAlnum("dan")
  {
    var d := "dan";
    assert d[0] == 'd' && d[1] == 'a' && d[2] == 'n';
  }

  lemma DanGlue(lx: string, ly: string)
    ensures lx + ("_" + ("dan" + ("_" + ly))) == lx + "_dan_" + ly
    ensures lx + (" " + ("dan" + (" " + ly))) == lx + " dan " + ly
    ensures lx + ("_dan_" + ly) == lx + "_dan_" + ly
  {
    assert "_" + ("dan" + ("_" + ly)) == "_dan_" + ly;
    assert " " + ("dan" + (" " + ly)) == " dan " + ly;
  }

  /** Text drawn from [a-z0-9] is a run of slug characters without `&` or `__`. */
  lemma AlnumFacts(t: string)
    requires AllAlnum(t)
    ensures NoAmp(t) && AllSlugChars(t) && NoDoubleUnderscore(t)
  {
  }

  /** Two words of [a-z0-9] joined by `_dan_` form a slug. */
  lemma DanSlug(lx: string, ly: string)
    requires lx != [] && ly != [] && AllAlnum(lx) && AllAlnum(ly)
    ensures IsSlug(lx + "_dan_" + ly)
  {
    var t := lx + "_dan_" + ly;
    var n := |lx|;
    assert |t| == n + 5 + |ly|;
    forall i | 0 <= i < |t| ensures IsSlugChar(t[i]) && (t[i] == '_' ==> i == n || i == n + 4) {
      if i < n {
        assert t[i] == lx[i];
      } else if i < n + 5 {
        assert t[i] == "_dan_"[i - n];
      } else {
        assert t[i] == ly[i - n - 5];
      }
    }
    assert t[n + 1] == 'd' && t[n + 5] == ly[0];
  }

  /** A word of ASCII letters and digits. */
  predicate IsWord(x: string)
  {
    forall i :: 0 <= i < |x| ==> IsAsciiAlnum(x[i])
  }

  /** A word lowercases into [a-z0-9]. */
  lemma LowerWord(x: string)
    requires IsWord(x)
    ensures AllAlnum(Lower(x))
  {
    var l := Lower(x);
    forall i | 0 <= i < |l| ensures IsAlnum(l[i]) {
      assert IsAsciiAlnum(x[i]);
    }
  }

  /**
   * Two words of ASCII letters and digits joined by `&` become the lowercase
   * words joined by `_dan_`.
   */
  lemma AmpBetweenWords(x: string, y: string)
    requires x != [] && y != [] && IsWord(x) && IsWord(y)
    ensures Slugify(x + "&" + y) == Lower(x) + "_dan_" + Lower(y)
  {
    var s := x + "&" + y;
    var lx, ly := Lower(x), Lower(y);
    AmpTrimLower(x, y);
    LowerWord(x);
    LowerWord(y);
    AmpCollapse(lx, ly);
    DanSlug(lx, ly);
    SlugAfterCollapse(s, lx + "_dan_" + ly);
  }

  /** Stripping whitespace and lowercasing two words around `&` lowercases each word. */
  lemma AmpTrimLower(x: string, y: string)
    requires x != [] && y != [] && IsWord(x) && IsWord(y)
    ensures Lower(Trim(x + "&" + y, IsSpace)) == Lower(x) + "&" + Lower(y)
  {
    var s := x + "&" + y;
    LowerAlnumChar(x[0]);
    LowerAlnumChar(y[|y| - 1]);
    assert s[0] == x[0] && s[|s| - 1] == y[|y| - 1];
    TrimKeeps(s, IsSpace);
    calc {
      Lower(s);
      { LowerAppend(x + "&", y); }
      Lower(x + "&") + Lower(y);
      { LowerAppend(x, "&"); }
      Lower(x) + Lower("&") + Lower(y);
      { AmpNotLowered(); }
      Lower(x) + "&" + Lower(y);
    }
  }

  /** `&` is not a letter. */
  lemma AmpNotLowered()
    ensures Lower("&") == "&"
  {
    var a := "&";
    assert Lower(a)[0] == a[0];
  }

  /** "!!!" falls back to "line". */
  lemma BangsGiveLine()
    ensures Slugify("!!!") == "line"
  {
    var b := "!!!";
    forall i | 0 <= i < |b| ensures !IsAsciiAlnum(b[i]) && b[i] != '&' {
      assert b[i] == '!';
    }
    NoAlnumGivesLine(b);
  }
}
