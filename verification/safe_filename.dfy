/** The storage-record name the collector derives from a user name
    (`_safe_filename_from_user`): placeholders map to a fixed fallback,
    surrounding whitespace is stripped, and every run of characters that are
    unsafe in a file name collapses to one underscore. */
module SafeFilename {
  import opened Wrappers
  import opened Text

  const Placeholder := "desconocido"
  const EmptyName := "usuario"
  const Extension := ".csv"

  /** The character class `[<>:"/\\|?*\n\r\t]` of the substitution. */
  predicate IsUnsafe(c: char) {
    || c == '<' || c == '>' || c == ':' || c == '"' || c == '/'
    || c == '\\' || c == '|' || c == '?' || c == '*'
    || c == '\n' || c == '\r' || c == '\t'
  }

  predicate IsSafeText(s: string) {
    forall i :: 0 <= i < |s| ==> !IsUnsafe(s[i])
  }

  predicate AllUnsafe(s: string) {
    forall i :: 0 <= i < |s| ==> IsUnsafe(s[i])
  }

  /** What is left of `s` after its leading run of unsafe characters. */
  function DropUnsafeRun(s: string): (r: string)
    ensures |r| <= |s|
    ensures r == [] || !IsUnsafe(r[0])
  {
    if s != [] && IsUnsafe(s[0]) then DropUnsafeRun(s[1..]) else s
  }

  /** `re.sub(r'[<>:"/\\|?*\n\r\t]+', "_", s)`. */
  function ReplaceUnsafeRuns(s: string): (r: string)
    ensures IsSafeText(r)
    ensures |r| <= |s|
    ensures r == [] <==> s == []
    decreases |s|
  {
    if s == [] then []
    else if IsUnsafe(s[0]) then "_" + ReplaceUnsafeRuns(DropUnsafeRun(s[1..]))
    else [s[0]] + ReplaceUnsafeRuns(s[1..])
  }

  /** Text without unsafe characters passes through unchanged. */
  lemma {:induction false} ReplaceKeepsSafeText(s: string)
    requires IsSafeText(s)
    ensures ReplaceUnsafeRuns(s) == s
    decreases |s|
  {
    if s != [] {
      ReplaceKeepsSafeText(s[1..]);
    }
  }

  /** The substitution is idempotent. */
  lemma ReplaceIdempotent(s: string)
    ensures ReplaceUnsafeRuns(ReplaceUnsafeRuns(s)) == ReplaceUnsafeRuns(s)
  {
    ReplaceKeepsSafeText(ReplaceUnsafeRuns(s));
  }

  /** A maximal run of unsafe characters becomes exactly one "_": when `u` is
      a non-empty run of unsafe characters with a safe character (or nothing)
      on either side, its replacement splits the result at that point. */
  lemma {:induction false} ReplaceMaximalRun(a: string, u: string, b: string)
    requires u != [] && AllUnsafe(u)
    requires a == [] || !IsUnsafe(a[|a| - 1])
    requires b == [] || !IsUnsafe(b[0])
    ensures ReplaceUnsafeRuns(a + u + b) == ReplaceUnsafeRuns(a) + "_" + ReplaceUnsafeRuns(b)
  {
    assert a + u + b == a + (u + b);
    ReplaceConcat(a, u + b);
    assert (u + b)[1..] == u[1..] + b;
    DropWholeRun(u[1..], b);
  }

  lemma {:induction false} DropWholeRun(u: string, b: string)
    requires AllUnsafe(u)
    requires b == [] || !IsUnsafe(b[0])
    ensures DropUnsafeRun(u + b) == b
    decreases |u|
  {
    if u == [] {
      assert u + b == b;
    } else {
      assert (u + b)[1..] == u[1..] + b;
      DropWholeRun(u[1..], b);
    }
  }

  /** Replacement distributes over a split just after a safe character. */
  lemma {:induction false} ReplaceConcat(a: string, t: string)
    requires a == [] || !IsUnsafe(a[|a| - 1])
    ensures ReplaceUnsafeRuns(a + t) == ReplaceUnsafeRuns(a) + ReplaceUnsafeRuns(t)
    decreases |a|
  {
    if a == [] {
      assert a + t == t;
    } else {
      var rest := a[1..];
      assert (a + t)[1..] == rest + t;
      assert (a + t)[0] == a[0];
      if IsUnsafe(a[0]) {
        UnfoldUnsafe(a);
        UnfoldUnsafe(a + t);
        DropRunConcat(rest, t);
        var d := DropUnsafeRun(rest);
        ReplaceConcat(d, t);
        Prepend("_", ReplaceUnsafeRuns(d), ReplaceUnsafeRuns(t));
      } else {
        UnfoldSafe(a);
        UnfoldSafe(a + t);
        ReplaceConcat(rest, t);
        Prepend([a[0]], ReplaceUnsafeRuns(rest), ReplaceUnsafeRuns(t));
      }
    }
  }

  lemma UnfoldUnsafe(s: string)
    requires s != [] && IsUnsafe(s[0])
    ensures ReplaceUnsafeRuns(s) == "_" + ReplaceUnsafeRuns(DropUnsafeRun(s[1..]))
  {
  }

  lemma UnfoldSafe(s: string)
    requires s != [] && !IsUnsafe(s[0])
    ensures ReplaceUnsafeRuns(s) == [s[0]] + ReplaceUnsafeRuns(s[1..])
  {
  }

  lemma Prepend(h: string, x: string, y: string)
    ensures h + (x + y) == (h + x) + y
  {
  }

  lemma {:induction false} DropRunConcat(a: string, t: string)
    requires a != [] && !IsUnsafe(a[|a| - 1])
    ensures DropUnsafeRun(a + t) == DropUnsafeRun(a) + t
    ensures DropUnsafeRun(a) != [] && !IsUnsafe(DropUnsafeRun(a)[|DropUnsafeRun(a)| - 1])
    decreases |a|
  {
    if IsUnsafe(a[0]) {
      assert (a + t)[1..] == a[1..] + t;
      DropRunConcat(a[1..], t);
    }
  }

  /** The name is a placeholder: missing (`None`), empty, or "n/a"/"none"
      in any case once stripped. */
  predicate IsPlaceholder(user: Option<string>) {
    || user.None?
    || user.value == []
    || Lower(Strip(user.value)) == "n/a"
    || Lower(Strip(user.value)) == "none"
  }

  /** The file name before its extension. */
  function Stem(user: Option<string>): (stem: string)
    ensures stem != [] && IsSafeText(stem)
    ensures IsPlaceholder(user) ==> stem == Placeholder
    ensures !IsPlaceholder(user) && AllSpace(user.value) ==> stem == EmptyName
    ensures !IsPlaceholder(user) && !AllSpace(user.value) ==>
              stem == ReplaceUnsafeRuns(Strip(user.value))
  {
    if IsPlaceholder(user) then
      // the source strips and substitutes "desconocido" too, which leaves it as is
      PlaceholderIsClean();
      Placeholder
    else
      var name := ReplaceUnsafeRuns(Strip(user.value));
      if name == [] then EmptyName else name
  }

  lemma PlaceholderIsClean()
    ensures ReplaceUnsafeRuns(Strip(Placeholder)) == Placeholder
  {
    StripUnpadded(Placeholder);
    ReplaceKeepsSafeText(Placeholder);
  }

  /** `_safe_filename_from_user`. */
  function SafeFilenameFromUser(user: Option<string>): (r: string)
    ensures |r| > |Extension| && r[|r| - |Extension|..] == Extension
    ensures var stem := r[..|r| - |Extension|]; stem != [] && IsSafeText(stem)
    ensures IsPlaceholder(user) ==> r == Placeholder + Extension
    ensures !IsPlaceholder(user) && AllSpace(user.value) ==> r == EmptyName + Extension
    ensures !IsPlaceholder(user) && !AllSpace(user.value) ==>
              r == ReplaceUnsafeRuns(Strip(user.value)) + Extension
  {
    var stem := Stem(user);
    assert (stem + Extension)[..|stem + Extension| - |Extension|] == stem;
    stem + Extension
  }
}
