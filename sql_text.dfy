/** Text helpers for statement synthesis: joining fragments with a
    separator, and counting positional `?` placeholders. */
module SqlText {

  /** The number of `?` placeholders in a piece of SQL text. */
  function Placeholders(s: string): nat
    decreases |s|
  {
    if |s| == 0 then 0 else (if s[0] == '?' then 1 else 0) + Placeholders(s[1..])
  }

  lemma {:induction false} PlaceholdersAppend(a: string, b: string)
    ensures Placeholders(a + b) == Placeholders(a) + Placeholders(b)
    decreases |a|
  {
    if |a| > 0 {
      assert (a + b)[0] == a[0] && (a + b)[1..] == a[1..] + b;
      PlaceholdersAppend(a[1..], b);
    } else {
      assert a + b == b;
    }
  }

  /** A piece of text with no `?` in it, as identifiers are assumed to be. */
  predicate PlaceholderFree(s: string) {
    '?' !in s
  }

  lemma {:induction false} PlaceholderFreeHasNone(s: string)
    requires PlaceholderFree(s)
    ensures Placeholders(s) == 0
    decreases |s|
  {
    if |s| > 0 {
      assert s[0] in s;
      assert forall c :: c in s[1..] ==> c in s;
      PlaceholderFreeHasNone(s[1..]);
    }
  }

  /** Appending placeholder-free text adds no placeholder. */
  lemma AppendFree(a: string, b: string)
    requires PlaceholderFree(b)
    ensures Placeholders(a + b) == Placeholders(a)
  {
    PlaceholdersAppend(a, b);
    PlaceholderFreeHasNone(b);
  }

  lemma ConcatAssoc(a: string, b: string, c: string)
    ensures (a + b) + c == a + (b + c)
  {
  }

  /** `parts` joined by `sep`: the separator goes between consecutive parts
      and never before the first or after the last. Defined from the right,
      the way a loop appends one part at a time. */
  function Join(sep: string, parts: seq<string>): string
    decreases |parts|
  {
    if |parts| == 0 then ""
    else if |parts| == 1 then parts[0]
    else Join(sep, parts[..|parts| - 1]) + sep + parts[|parts| - 1]
  }

  /** Joining one more part adds the separator, unless it is the first
      part, and then the part: the step of a loop that joins as it goes. */
  lemma JoinStep(sep: string, parts: seq<string>, i: nat)
    requires i < |parts|
    ensures Join(sep, parts[..i + 1])
         == (if i == 0 then Join(sep, parts[..i]) else Join(sep, parts[..i]) + sep) + parts[i]
  {
    assert parts[..i + 1][..i] == parts[..i];
    if i == 0 {
      assert Join(sep, parts[..i]) + parts[i] == parts[i];
    }
  }

  /** A non-empty join starts with its first part and ends with its last one:
      there is no leading or trailing separator. */
  lemma {:induction false} JoinEnds(sep: string, parts: seq<string>)
    requires |parts| > 0
    ensures |Join(sep, parts)| >= |parts[0]| && Join(sep, parts)[..|parts[0]|] == parts[0]
    ensures |Join(sep, parts)| >= |parts[|parts| - 1]|
    ensures Join(sep, parts)[|Join(sep, parts)| - |parts[|parts| - 1]|..] == parts[|parts| - 1]
  {
    if |parts| > 1 {
      var init := parts[..|parts| - 1];
      JoinEnds(sep, init);
      assert init[0] == parts[0];
      var j := Join(sep, init);
      assert Join(sep, parts) == j + sep + parts[|parts| - 1];
      assert (j + sep + parts[|parts| - 1])[..|parts[0]|] == j[..|parts[0]|];
    }
  }

  /** The total number of placeholders in a list of fragments. */
  function TotalPlaceholders(parts: seq<string>): nat
    decreases |parts|
  {
    if |parts| == 0 then 0
    else TotalPlaceholders(parts[..|parts| - 1]) + Placeholders(parts[|parts| - 1])
  }

  /** Joining with a placeholder-free separator neither adds nor loses
      placeholders. */
  lemma {:induction false} JoinPlaceholders(sep: string, parts: seq<string>)
    requires PlaceholderFree(sep)
    ensures Placeholders(Join(sep, parts)) == TotalPlaceholders(parts)
    decreases |parts|
  {
    PlaceholderFreeHasNone(sep);
    if |parts| == 1 {
      assert parts[..0] == [];
    } else if |parts| > 1 {
      var init := parts[..|parts| - 1];
      JoinPlaceholders(sep, init);
      PlaceholdersAppend(Join(sep, init), sep);
      PlaceholdersAppend(Join(sep, init) + sep, parts[|parts| - 1]);
    }
  }

  /** `n` single-placeholder fragments. */
  function Marks(n: nat): (r: seq<string>)
    ensures |r| == n
    ensures forall i :: 0 <= i < n ==> r[i] == "?"
  {
    seq(n, _ => "?")
  }

  lemma {:induction false} MarksPlaceholders(n: nat)
    ensures TotalPlaceholders(Marks(n)) == n
  {
    if n > 0 {
      assert Marks(n)[..n - 1] == Marks(n - 1);
      MarksPlaceholders(n - 1);
      assert Marks(n)[n - 1] == "?";
      assert Placeholders("?") == 1;
    }
  }

  /** The placeholder list of `n` values reads `?,?,…,?`: a `?` at every
      even position and a `,` at every odd one, `2n - 1` characters in all. */
  lemma {:induction false} MarksShape(n: nat)
    requires n > 0
    ensures |Join(",", Marks(n))| == 2 * n - 1
    ensures forall k :: 0 <= k < 2 * n - 1 ==>
              Join(",", Marks(n))[k] == if k % 2 == 0 then '?' else ','
  {
    if n > 1 {
      MarksShape(n - 1);
      assert Marks(n)[..n - 1] == Marks(n - 1);
      var j := Join(",", Marks(n - 1));
      assert Join(",", Marks(n)) == j + "," + "?";
    }
  }
}
