/** The text stages of the job-data migration script: locating the
    `export const jobs: Job[] = [...];` declaration and rewriting the
    JavaScript literals `true`, `false` and `null` into Python's spelling
    before the literal is handed to Python's literal parser. */
module ScriptText {
  import opened Common

  // ---------------------------------------------------------------------
  // Python's `str.replace(pat, rep)`: a left-to-right scan that replaces
  // every non-overlapping occurrence of `pat`.

  function ReplaceAll(s: string, pat: string, rep: string): (r: string)
    requires |pat| > 0
    ensures |rep| == |pat| ==> |r| == |s|
    decreases |s|
  {
    if |s| == 0 then []
    else if pat <= s then rep + ReplaceAll(s[|pat|..], pat, rep)
    else [s[0]] + ReplaceAll(s[1..], pat, rep)
  }

  /** `q in s` for Python strings: `q` occurs somewhere inside `s`. */
  predicate Occurs(q: string, s: string)
    decreases |s|
  {
    q <= s || (|s| > 0 && Occurs(q, s[1..]))
  }

  /** No occurrence of `pat` starts inside `a`: the scan copies `a` through
      and carries on with what follows it. */
  lemma {:induction false} ReplaceAllSkips(a: string, t: string, pat: string, rep: string)
    requires |pat| > 0
    requires forall j :: 0 <= j < |a| ==> !(pat <= (a + t)[j..])
    ensures ReplaceAll(a + t, pat, rep) == a + ReplaceAll(t, pat, rep)
    decreases |a|
  {
    if a == [] {
      assert a + t == t;
    } else {
      var s := a + t;
      assert s[0..] == s;
      assert s[1..] == a[1..] + t;
      forall j | 0 <= j < |a[1..]|
        ensures !(pat <= (a[1..] + t)[j..])
      {
        assert (a[1..] + t)[j..] == s[j + 1..];
      }
      ReplaceAllSkips(a[1..], t, pat, rep);
      assert a == [a[0]] + a[1..];
    }
  }

  /** The first occurrence of `pat` is replaced by `rep`; the text before it
      is kept and the scan resumes right after it. */
  lemma ReplaceAllSplit(a: string, b: string, pat: string, rep: string)
    requires |pat| > 0
    requires forall j :: 0 <= j < |a| ==> !(pat <= (a + pat)[j..])
    ensures ReplaceAll(a + pat + b, pat, rep) == a + rep + ReplaceAll(b, pat, rep)
  {
    var t := pat + b;
    assert a + pat + b == a + t;
    forall j | 0 <= j < |a|
      ensures !(pat <= (a + t)[j..])
    {
      assert !(pat <= (a + pat)[j..]);
      assert (a + t)[j..][..|pat|] == (a + pat)[j..][..|pat|];
    }
    ReplaceAllSkips(a, t, pat, rep);
    assert pat <= t && t[|pat|..] == b;
  }

  /** A same-length replace touches a character only where the pattern sat:
      every character is kept, or it was a character of the pattern and is
      now a character of the replacement. */
  lemma {:induction false} ReplaceAllLocal(s: string, pat: string, rep: string)
    requires |pat| > 0 && |rep| == |pat|
    ensures forall i :: 0 <= i < |s| ==>
      ReplaceAll(s, pat, rep)[i] == s[i] || (s[i] in pat && ReplaceAll(s, pat, rep)[i] in rep)
    decreases |s|
  {
    var r := ReplaceAll(s, pat, rep);
    if |s| > 0 {
      if pat <= s {
        var rest := s[|pat|..];
        ReplaceAllLocal(rest, pat, rep);
        assert r == rep + ReplaceAll(rest, pat, rep);
        forall i | 0 <= i < |s|
          ensures r[i] == s[i] || (s[i] in pat && r[i] in rep)
        {
          if i < |pat| {
            assert s[i] == pat[i] && r[i] == rep[i];
          } else {
            assert s[i] == rest[i - |pat|];
          }
        }
      } else {
        ReplaceAllLocal(s[1..], pat, rep);
        assert r == [s[0]] + ReplaceAll(s[1..], pat, rep);
      }
    }
  }

  /** The conversion at data/script.py lines 5-10: three chained replaces.
      It keeps the length, and a character changes only if it is a letter of
      `true`, `false` or `null` and becomes a letter of `True`, `False` or
      `None`. */
  function JsToPython(s: string): (r: string)
    ensures |r| == |s|
    ensures forall i :: 0 <= i < |s| ==>
      r[i] == s[i] || ((s[i] in "true" || s[i] in "false" || s[i] in "null")
                       && (r[i] in "True" || r[i] in "False" || r[i] in "None"))
  {
    var a := ReplaceAll(s, "true", "True");
    var b := ReplaceAll(a, "false", "False");
    ReplaceAllLocal(s, "true", "True");
    ReplaceAllLocal(a, "false", "False");
    ReplaceAllLocal(b, "null", "None");
    ReplaceAll(b, "null", "None")
  }

  /** No suffix of `x` can start an occurrence of `q` that runs on past `x`,
      and `q` does not sit inside `x`. */
  ghost predicate Unaligned(x: string, q: string) {
    forall j :: 0 <= j < |x| ==> !(x[j..] <= q) && !(q <= x[j..])
  }

  lemma {:induction false} OccursPastBlock(x: string, t: string, q: string)
    requires |q| > 0 && Unaligned(x, q)
    requires Occurs(q, x + t)
    ensures Occurs(q, t)
    decreases |x|
  {
    if |x| == 0 {
      assert x + t == t;
    } else {
      assert !(x[0..] <= q) && !(q <= x[0..]);
      assert x[0..] == x;
      assert (x + t)[1..] == x[1..] + t;
      forall j | 0 <= j < |x[1..]|
        ensures !(x[1..][j..] <= q) && !(q <= x[1..][j..])
      {
        assert x[1..][j..] == x[j + 1..];
      }
      assert Occurs(q, x[1..] + t);
      OccursPastBlock(x[1..], t, q);
    }
  }

  /** A replaced text starts with `w` only where the original did, as long as
      the replacement's first character is not in `w`. */
  lemma {:induction false} PrefixOfReplaced(s: string, pat: string, rep: string, w: string)
    requires |pat| > 0 && |rep| == |pat|
    requires rep[0] !in w
    requires w <= ReplaceAll(s, pat, rep)
    ensures w <= s
    decreases |s|
  {
    if |w| > 0 {
      assert |s| > 0;
      assert w[0] != rep[0] && ReplaceAll(s, pat, rep)[0] == w[0];
      if pat <= s {
        assert false;
      } else {
        var tail := ReplaceAll(s[1..], pat, rep);
        assert ReplaceAll(s, pat, rep) == [s[0]] + tail;
        assert w[1..] <= tail;
        PrefixOfReplaced(s[1..], pat, rep, w[1..]);
        assert w == [w[0]] + w[1..];
      }
    }
  }

  /** An occurrence of `q` after a replace was already in the text before it,
      and `q` cannot be the replaced pattern itself. */
  lemma {:induction false} OccursAfterReplace(s: string, pat: string, rep: string, q: string)
    requires |pat| > 0 && |rep| == |pat| && |q| > 0
    requires rep[0] !in q[1..]
    requires Unaligned(rep, q)
    requires Occurs(q, ReplaceAll(s, pat, rep))
    ensures Occurs(q, s) && q != pat
    decreases |s|
  {
    var r := ReplaceAll(s, pat, rep);
    if |s| == 0 {
      assert false;
    } else if pat <= s {
      var rest := s[|pat|..];
      assert r == rep + ReplaceAll(rest, pat, rep);
      OccursPastBlock(rep, ReplaceAll(rest, pat, rep), q);
      OccursAfterReplace(rest, pat, rep, q);
      OccursInSuffix(s, |pat|, q);
    } else {
      var tail := ReplaceAll(s[1..], pat, rep);
      assert r == [s[0]] + tail;
      assert r[1..] == tail;
      if q <= r {
        assert q[1..] <= tail;
        PrefixOfReplaced(s[1..], pat, rep, q[1..]);
        assert q == [q[0]] + q[1..] && s == [s[0]] + s[1..];
        assert q <= s;
      } else {
        OccursAfterReplace(s[1..], pat, rep, q);
      }
    }
  }

  lemma {:induction false} OccursInSuffix(s: string, n: nat, q: string)
    requires n <= |s| && Occurs(q, s[n..])
    ensures Occurs(q, s)
    decreases n
  {
    if n > 0 {
      assert s[1..][n - 1..] == s[n..];
      OccursInSuffix(s[1..], n - 1, q);
    }
  }

  /** Every lowercase `true`, `false` and `null` is gone after the conversion. */
  lemma NoJsLiteralRemains(s: string)
    ensures !Occurs("true", JsToPython(s))
    ensures !Occurs("false", JsToPython(s))
    ensures !Occurs("null", JsToPython(s))
  {
    var a := ReplaceAll(s, "true", "True");
    var b := ReplaceAll(a, "false", "False");
    var c := ReplaceAll(b, "null", "None");
    UnalignedFacts();
    if Occurs("true", c) {
      OccursAfterReplace(b, "null", "None", "true");
      OccursAfterReplace(a, "false", "False", "true");
      OccursAfterReplace(s, "true", "True", "true");
    }
    if Occurs("false", c) {
      OccursAfterReplace(b, "null", "None", "false");
      OccursAfterReplace(a, "false", "False", "false");
    }
    if Occurs("null", c) {
      OccursAfterReplace(b, "null", "None", "null");
    }
  }

  lemma UnalignedIfFirstAbsent(x: string, q: string)
    requires |q| > 0 && q[0] !in x
    ensures Unaligned(x, q)
  {
  }

  lemma UnalignedFacts()
    ensures Unaligned("True", "true") && Unaligned("False", "true") && Unaligned("None", "true")
    ensures Unaligned("False", "false") && Unaligned("None", "false")
    ensures Unaligned("None", "null")
  {
    UnalignedIfFirstAbsent("True", "true");
    UnalignedIfFirstAbsent("False", "true");
    UnalignedIfFirstAbsent("None", "true");
    UnalignedIfFirstAbsent("False", "false");
    UnalignedIfFirstAbsent("None", "false");
    forall j | 0 <= j < 4
      ensures !("None"[j..] <= "null") && !("null" <= "None"[j..])
    {
      if j == 2 {
        assert "None"[2..] == "ne";
        assert "ne"[1] != "null"[1];
      } else {
        assert "None"[j..][0] != 'n';
      }
    }
  }

  /** Text without any of the three words comes through untouched. */
  lemma {:induction false} ReplaceAbsent(s: string, pat: string, rep: string)
    requires |pat| > 0 && !Occurs(pat, s)
    ensures ReplaceAll(s, pat, rep) == s
    decreases |s|
  {
    if |s| > 0 {
      ReplaceAbsent(s[1..], pat, rep);
      assert s == [s[0]] + s[1..];
    }
  }

  lemma JsToPythonIdentity(s: string)
    requires !Occurs("true", s) && !Occurs("false", s) && !Occurs("null", s)
    ensures JsToPython(s) == s
  {
    ReplaceAbsent(s, "true", "True");
    ReplaceAbsent(s, "false", "False");
    ReplaceAbsent(s, "null", "None");
  }

  /** `q` cannot occur in `s` when no position of `s` that holds `q`'s
      first character leaves room for the rest of `q`. */
  lemma {:induction false} NotOccurs(q: string, s: string)
    requires |q| > 0
    requires forall i :: 0 <= i < |s| && s[i] == q[0] ==> |s| - i < |q|
    ensures !Occurs(q, s)
    decreases |s|
  {
    if |s| > 0 {
      forall i | 0 <= i < |s[1..]| && s[1..][i] == q[0]
        ensures |s[1..]| - i < |q|
      {
        assert s[1..][i] == s[i + 1];
      }
      NotOccurs(q, s[1..]);
    }
  }

  /** The substitution is blind to string contents: a value such as
      "nullify" inside a quoted string is rewritten as well. */
  lemma RewritesInsideWords()
    ensures JsToPython("nullify") == "Noneify"
  {
    var w := "nullify";
    NullifyStages();
    assert JsToPython(w) == ReplaceAll(ReplaceAll(ReplaceAll(w, "true", "True"), "false", "False"), "null", "None");
  }

  /** The three replaces on "nullify", one at a time. */
  lemma NullifyStages()
    ensures ReplaceAll("nullify", "true", "True") == "nullify"
    ensures ReplaceAll("nullify", "false", "False") == "nullify"
    ensures ReplaceAll("nullify", "null", "None") == "Noneify"
  {
    var w := "nullify";
    assert w[0] == 'n' && w[1] == 'u' && w[2] == 'l' && w[3] == 'l' && w[4] == 'i' && w[5] == 'f' && w[6] == 'y';
    NotOccurs("true", w);
    ReplaceAbsent(w, "true", "True");
    NotOccurs("false", w);
    ReplaceAbsent(w, "false", "False");
    NullifyNull();
  }

  lemma NullifyNull()
    ensures ReplaceAll("nullify", "null", "None") == "Noneify"
  {
    var rest := "ify";
    assert rest[0] == 'i' && rest[1] == 'f' && rest[2] == 'y';
    NotOccurs("null", rest);
    ReplaceAbsent(rest, "null", "None");
    ReplaceAllSplit("", rest, "null", "None");
    assert "" + "null" + rest == "nullify";
    assert "" + "None" + rest == "Noneify";
  }

  // ---------------------------------------------------------------------
  // The search `re.search(r'export const jobs: Job\[\] = (\[[\s\S]*?\]);', content)`.

  const Declaration := "export const jobs: Job[] = "
  const NotFound := "Couldn't find jobs array in the file"

  /** The declaration followed by the array's opening bracket starts at `i`. */
  predicate DeclAt(s: string, i: nat) {
    i + |Declaration| + 1 <= |s| && Declaration + "[" <= s[i..]
  }

  /** A closing `];` starts at `j`. */
  predicate CloseAt(s: string, j: nat) {
    j + 2 <= |s| && s[j] == ']' && s[j + 1] == ';'
  }

  /** The first index at or after `i` where `q` starts, if any. */
  function IndexOf(s: string, q: string, i: nat): (r: Option<nat>)
    ensures r.Some? ==> i <= r.value && r.value + |q| <= |s| && q <= s[r.value..]
    ensures r.Some? ==> forall m :: i <= m < r.value ==> !(q <= s[m..])
    ensures r.None? ==> forall m :: i <= m && m + |q| <= |s| ==> !(q <= s[m..])
    decreases |s| - i
  {
    if i + |q| > |s| then None
    else if q <= s[i..] then Some(i)
    else IndexOf(s, q, i + 1)
  }

  /** Some declaration is followed, past its opening bracket, by a `];`. */
  ghost predicate HasMatch(s: string) {
    exists i: nat, j: nat :: DeclAt(s, i) && i + |Declaration| + 1 <= j && CloseAt(s, j)
  }

  /** The match the regular expression reports: the leftmost declaration,
      closed by the nearest `];` after its opening bracket (`*?` is lazy). */
  ghost predicate LeftmostLazyMatch(s: string, i: nat, j: nat) {
    && DeclAt(s, i) && (forall i': nat :: i' < i ==> !DeclAt(s, i'))
    && i + |Declaration| + 1 <= j && CloseAt(s, j)
    && (forall m: nat :: i + |Declaration| + 1 <= m < j ==> !CloseAt(s, m))
  }

  lemma CloseAtIff(s: string, j: nat)
    ensures CloseAt(s, j) <==> j + 2 <= |s| && "];" <= s[j..]
  {
  }

  /** The array literal text (from `[` through the first `]` followed by `;`),
      or the ValueError the script raises when there is none. */
  function ExtractJobsArray(content: string): (r: Result<string, string>)
    ensures r.Failure? <==> !HasMatch(content)
    ensures r.Failure? ==> r.error == NotFound
    ensures r.Success? ==>
      exists i: nat, j: nat :: LeftmostLazyMatch(content, i, j) && r.value == content[i + |Declaration|..j + 1]
  {
    match IndexOf(content, Declaration + "[", 0)
    case None =>
      NoDeclarationNoMatch(content);
      Failure(NotFound)
    case Some(i) =>
      match IndexOf(content, "];", i + |Declaration| + 1)
      case None =>
        NoCloseNoMatch(content, i);
        Failure(NotFound)
      case Some(j) =>
        FoundMatch(content, i, j);
        Success(content[i + |Declaration|..j + 1])
  }

  lemma NoDeclarationNoMatch(content: string)
    requires IndexOf(content, Declaration + "[", 0).None?
    ensures !HasMatch(content)
  {
  }

  lemma NoCloseNoMatch(content: string, i: nat)
    requires IndexOf(content, Declaration + "[", 0) == Some(i)
    requires IndexOf(content, "];", i + |Declaration| + 1).None?
    ensures !HasMatch(content)
  {
    forall i': nat, j: nat | DeclAt(content, i') && i' + |Declaration| + 1 <= j
      ensures !CloseAt(content, j)
    {
      assert i <= i';
      CloseAtIff(content, j);
    }
  }

  lemma FoundMatch(content: string, i: nat, j: nat)
    requires IndexOf(content, Declaration + "[", 0) == Some(i)
    requires IndexOf(content, "];", i + |Declaration| + 1) == Some(j)
    ensures LeftmostLazyMatch(content, i, j) && HasMatch(content)
    ensures exists i': nat, j': nat ::
              LeftmostLazyMatch(content, i', j') && content[i + |Declaration|..j + 1] == content[i' + |Declaration|..j' + 1]
  {
    FoundDeclaration(content, i);
    FoundClose(content, i + |Declaration| + 1, j);
    MatchFromParts(content, i, j);
  }

  /** A leftmost declaration and the nearest `];` after its bracket make the
      match. */
  lemma MatchFromParts(content: string, i: nat, j: nat)
    requires DeclAt(content, i) && forall i': nat :: i' < i ==> !DeclAt(content, i')
    requires i + |Declaration| + 1 <= j && CloseAt(content, j)
    requires forall m: nat :: i + |Declaration| + 1 <= m < j ==> !CloseAt(content, m)
    ensures LeftmostLazyMatch(content, i, j) && HasMatch(content)
    ensures exists i': nat, j': nat ::
              LeftmostLazyMatch(content, i', j') && content[i + |Declaration|..j + 1] == content[i' + |Declaration|..j' + 1]
  {
    assert LeftmostLazyMatch(content, i, j);
  }

  /** The first declaration `IndexOf` finds is the leftmost one. */
  lemma FoundDeclaration(content: string, i: nat)
    requires IndexOf(content, Declaration + "[", 0) == Some(i)
    ensures DeclAt(content, i) && forall i': nat :: i' < i ==> !DeclAt(content, i')
  {
  }

  /** The first `];` `IndexOf` finds from `a` on is the nearest one. */
  lemma FoundClose(content: string, a: nat, j: nat)
    requires IndexOf(content, "];", a) == Some(j)
    ensures a <= j && CloseAt(content, j)
    ensures forall m: nat :: a <= m < j ==> !CloseAt(content, m)
  {
    CloseAtIff(content, j);
    forall m: nat | a <= m < j
      ensures !CloseAt(content, m)
    {
      CloseAtIff(content, m);
    }
  }

  lemma DeclAtBracket(s: string, i: nat)
    requires DeclAt(s, i)
    ensures s[i + |Declaration|] == '['
  {
  }

  lemma MatchedBodyShape(content: string, i: nat, j: nat)
    requires LeftmostLazyMatch(content, i, j)
    ensures var body := content[i + |Declaration|..j + 1];
      && |body| >= 2 && body[0] == '[' && body[|body| - 1] == ']'
      && forall m :: 0 <= m < |body| - 1 ==> !(body[m] == ']' && body[m + 1] == ';')
  {
    var a := i + |Declaration|;
    var body := content[a..j + 1];
    DeclAtBracket(content, i);
    forall m | 0 <= m < |body| - 1
      ensures !(body[m] == ']' && body[m + 1] == ';')
    {
      assert body[m] == content[a + m] && body[m + 1] == content[a + m + 1];
      if m > 0 {
        assert !CloseAt(content, a + m);
      }
    }
  }

  /** What the captured group looks like: it opens with `[`, closes with `]`,
      and holds no `];` before its end. */
  lemma ExtractedArrayShape(content: string)
    requires ExtractJobsArray(content).Success?
    ensures var body := ExtractJobsArray(content).value;
      && |body| >= 2 && body[0] == '[' && body[|body| - 1] == ']'
      && forall m :: 0 <= m < |body| - 1 ==> !(body[m] == ']' && body[m + 1] == ';')
  {
    ArrayShape(content, ExtractJobsArray(content).value);
  }

  /** The shape of any text the search can capture. */
  lemma ArrayShape(content: string, body: string)
    requires exists i: nat, j: nat :: LeftmostLazyMatch(content, i, j) && body == content[i + |Declaration|..j + 1]
    ensures |body| >= 2 && body[0] == '[' && body[|body| - 1] == ']'
    ensures forall m :: 0 <= m < |body| - 1 ==> !(body[m] == ']' && body[m + 1] == ';')
  {
    var i: nat, j: nat :| LeftmostLazyMatch(content, i, j) && body == content[i + |Declaration|..j + 1];
    MatchedBodyShape(content, i, j);
  }

  /** Lines 43-50 of the script: extract, then convert; a missing declaration
      is reported before anything is converted or parsed. */
  function PrepareLiteral(content: string): (r: Result<string, string>)
    ensures r.Failure? <==> !HasMatch(content)
    ensures r.Success? ==>
      && ExtractJobsArray(content).Success?
      && r.value == JsToPython(ExtractJobsArray(content).value)
      && |r.value| == |ExtractJobsArray(content).value|
      && !Occurs("true", r.value) && !Occurs("false", r.value) && !Occurs("null", r.value)
  {
    match ExtractJobsArray(content)
    case Failure(e) => Failure(e)
    case Success(body) =>
      NoJsLiteralRemains(body);
      Success(JsToPython(body))
  }
}
