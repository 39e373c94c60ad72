/** The tokenizer every stored value is read with (src/helper/string.cc), and the joining that the
    etcd client writes values with. A list is stored as its tokens separated by one character. */
module Text {

  /** The position of the first `d` in `s`, or |s| when there is none. */
  function IndexOf(s: string, d: char): (i: nat)
    ensures i <= |s|
    ensures i < |s| ==> s[i] == d
    ensures d !in s[..i]
    ensures i == |s| <==> d !in s
  {
    if s == "" then 0 else if s[0] == d then 0 else
      var k := IndexOf(s[1..], d);
      assert s == [s[0]] + s[1..];
      assert s[..k + 1] == [s[0]] + s[1..][..k];
      k + 1
  }

  /** What repeated `getline` calls read: a token up to each delimiter, and no token after a
      delimiter that ends the text. */
  function Tokens(s: string, d: char): seq<string>
    decreases |s|
  {
    if s == "" then [] else
      var i := IndexOf(s, d);
      if i == |s| then [s] else [s[..i]] + Tokens(s[i + 1..], d)
  }

  function Join(xs: seq<string>, d: char): string
  {
    if xs == [] then "" else if |xs| == 1 then xs[0] else xs[0] + [d] + Join(xs[1..], d)
  }

  /** `helper::split`: a loop of `getline` calls, each appending one token. */
  method Split(s: string, d: char) returns (tokens: seq<string>)
    ensures tokens == Tokens(s, d)
  {
    tokens := [];
    var rest := s;
    while rest != ""
      invariant tokens + Tokens(rest, d) == Tokens(s, d)
      decreases |rest|
    {
      var i := IndexOf(rest, d);
      if i == |rest| {
        tokens, rest := tokens + [rest], "";
      } else {
        tokens, rest := tokens + [rest[..i]], rest[i + 1..];
      }
    }
  }

  /** No token contains the delimiter, and the last one is not empty. */
  ghost predicate Splittable(xs: seq<string>, d: char)
  {
    && (forall x <- xs :: d !in x)
    && (xs != [] ==> xs[|xs| - 1] != "")
  }

  lemma {:induction false} IndexOfPrefix(x: string, t: string, d: char)
    requires d !in x
    ensures IndexOf(x + [d] + t, d) == |x|
    decreases |x|
  {
    if x != "" {
      IndexOfPrefix(x[1..], t, d);
      assert (x + [d] + t)[1..] == x[1..] + [d] + t;
    }
  }

  lemma {:induction false} JoinNonEmpty(xs: seq<string>, d: char)
    requires xs != [] && xs[|xs| - 1] != ""
    ensures Join(xs, d) != ""
  {
  }

  /** Reading a joined list gives the list back. */
  lemma {:induction false} TokensOfJoin(xs: seq<string>, d: char)
    requires Splittable(xs, d)
    ensures Tokens(Join(xs, d), d) == xs
  {
    if |xs| == 1 {
      assert IndexOf(xs[0], d) == |xs[0]|;
    } else if |xs| > 1 {
      TokensOfJoin(xs[1..], d);
      TokensOfCons(xs[0], Join(xs[1..], d), d);
    }
  }

  lemma {:induction false} TokensOfCons(x: string, t: string, d: char)
    requires d !in x
    ensures Tokens(x + [d] + t, d) == [x] + Tokens(t, d)
  {
    var s := x + [d] + t;
    IndexOfPrefix(x, t, d);
    assert s[..|x|] == x && s[|x| + 1..] == t;
  }

  /** What splitting does, case by case: nothing, one token, or a token and the rest. */
  lemma {:induction false} TokensSpelling(x: string, t: string, d: char)
    requires d !in x
    ensures Tokens("", d) == [] && (x != "" ==> Tokens(x, d) == [x]) && Tokens(x + [d] + t, d) == [x] + Tokens(t, d)
  {
    TokensOfCons(x, t, d);
    assert IndexOf(x, d) == |x|;
  }

  lemma {:induction false} TokensAreDelimiterFree(s: string, d: char)
    ensures forall x <- Tokens(s, d) :: d !in x
    decreases |s|
  {
    if s != "" && IndexOf(s, d) < |s| {
      TokensAreDelimiterFree(s[IndexOf(s, d) + 1..], d);
    }
  }

  /** Splitting undoes joining for exactly the lists whose tokens are delimiter-free and whose last
      token is not empty: `getline` reports no token after a final delimiter. */
  lemma {:induction false} SplitJoinExact(xs: seq<string>, d: char)
    ensures Tokens(Join(xs, d), d) == xs <==> Splittable(xs, d)
  {
    if Tokens(Join(xs, d), d) == xs {
      TokensAreDelimiterFree(Join(xs, d), d);
      assert forall x <- xs :: d !in x;
      if |xs| > 1 {
        TokensOfCons(xs[0], Join(xs[1..], d), d);
        assert ([xs[0]] + Tokens(Join(xs[1..], d), d))[1..] == xs[1..];
        SplitJoinExact(xs[1..], d);
      }
    }
    if Splittable(xs, d) {
      TokensOfJoin(xs, d);
    }
  }

  /** Joining undoes splitting for exactly the texts that do not end with the delimiter. */
  lemma {:induction false} JoinSplitExact(s: string, d: char)
    ensures Join(Tokens(s, d), d) == s <==> s == "" || s[|s| - 1] != d
    decreases |s|
  {
    if s != "" {
      var i := IndexOf(s, d);
      if i < |s| {
        var t := s[i + 1..];
        assert s == s[..i] + [d] + t;
        JoinSplitExact(t, d);
        if t == "" {
          assert Tokens(t, d) == [];
          assert Join(Tokens(s, d), d) == s[..i];
        } else {
          assert Tokens(t, d) != [];
          assert Tokens(s, d)[1..] == Tokens(t, d);
          assert Join(Tokens(s, d), d) == s[..i] + [d] + Join(Tokens(t, d), d);
          assert t[|t| - 1] == s[|s| - 1];
          assert |s[..i] + [d]| == i + 1;
          if Join(Tokens(s, d), d) == s {
            assert (s[..i] + [d] + Join(Tokens(t, d), d))[i + 1..] == Join(Tokens(t, d), d);
          }
        }
      }
    }
  }

  /** Appending to the text of a list is appending to the list. */
  lemma {:induction false} JoinAppend(xs: seq<string>, x: string, d: char)
    ensures Join(xs + [x], d) == if xs == [] then x else Join(xs, d) + [d] + x
  {
    if |xs| > 1 {
      JoinAppend(xs[1..], x, d);
      assert (xs + [x])[1..] == xs[1..] + [x];
    }
  }

  /** Deleting every copy of one character: `std::remove` followed by `erase`. */
  function Erase(s: string, c: char): (r: string)
    ensures c !in r
    ensures c !in s ==> r == s
  {
    if s == "" then "" else if s[0] == c then Erase(s[1..], c) else [s[0]] + Erase(s[1..], c)
  }

  lemma {:induction false} EraseTrailing(s: string, c: char)
    requires c !in s
    ensures Erase(s + [c], c) == s
  {
    if s == "" {
    } else {
      EraseTrailing(s[1..], c);
      assert (s + [c])[1..] == s[1..] + [c];
    }
  }

  lemma {:induction false} JoinLacks(xs: seq<string>, d: char, c: char)
    requires c != d && forall x <- xs :: c !in x
    ensures c !in Join(xs, d)
  {
    if |xs| > 1 {
      JoinLacks(xs[1..], d, c);
    }
  }
}
