/**
 * The text preprocessing chain. A remapper tries its mappings in order and
 * rewrites the text with the first one whose search pattern matches (exact
 * case); the preprocessors of the configuration are applied one after the
 * other, each to the output of the previous one.
 */
module Preprocessor {
  import opened Wrappers
  import opened Strings
  import opened Config
  import opened Regex

  datatype Remapper = Remapper(mappings: seq<Mapping>)

  /** `Remapper::from_mappings`: a copy of the given mappings. */
  function FromMappings(maps: seq<Mapping>): (r: Remapper)
    ensures |r.mappings| == |maps|
    ensures forall i :: 0 <= i < |maps| ==> r.mappings[i] == maps[i]
  {
    Remapper(maps)
  }

  /** `PreprocessorConfig::preprocessor()`: the remapper for a remap table. */
  function PreprocessorOf(pre: PreprocessorConfig): Remapper {
    FromMappings(pre.mappings)
  }

  /** The mapping `m` applies to `input`. */
  predicate Applies(m: Mapping, input: string) {
    IsMatch(m.search, input)
  }

  /** `m` applies to `input` and rewrites it into `out`. */
  predicate RewritesTo(m: Mapping, input: string, out: string) {
    Applies(m, input) && out == ReplaceAll(m.search, m.replace, input)
  }

  /** Mapping `k` is the first of `ms` that applies to `input`. */
  predicate FirstApplying(ms: seq<Mapping>, input: string, k: nat) {
    k < |ms| && Applies(ms[k], input) && forall j :: 0 <= j < k ==> !Applies(ms[j], input)
  }

  /**
   * The loop of `Remapper::process` over the mappings still to try: the
   * result is the input, or the rewrite by some mapping that applies.
   */
  function FirstMatch(ms: seq<Mapping>, input: string): (r: string)
    ensures r == input || exists k :: 0 <= k < |ms| && RewritesTo(ms[k], input, r)
  {
    if ms == [] then input
    else if Applies(ms[0], input) then ReplaceAll(ms[0].search, ms[0].replace, input)
    else
      var r := FirstMatch(ms[1..], input);
      assert r != input ==> exists k :: 1 <= k < |ms| && RewritesTo(ms[k], input, r)
      by {
        if r != input {
          var k :| 0 <= k < |ms[1..]| && RewritesTo(ms[1..][k], input, r);
          assert ms[1..][k] == ms[k + 1];
        }
      }
      r
  }

  /**
   * `Remapper::process`: the `replace_all` of the first mapping whose search
   * matches, or the input itself when none does.
   */
  function Process(r: Remapper, input: string): (out: string)
    ensures (forall j :: 0 <= j < |r.mappings| ==> !Applies(r.mappings[j], input)) ==> out == input
    ensures forall k: nat :: FirstApplying(r.mappings, input, k) ==> RewritesTo(r.mappings[k], input, out)
  {
    assert forall k: nat :: FirstApplying(r.mappings, input, k) ==>
      RewritesTo(r.mappings[k], input, FirstMatch(r.mappings, input))
    by {
      forall k: nat | FirstApplying(r.mappings, input, k)
        ensures RewritesTo(r.mappings[k], input, FirstMatch(r.mappings, input))
      {
        FirstMatchAt(r.mappings, input, k);
      }
    }
    assert (forall j :: 0 <= j < |r.mappings| ==> !Applies(r.mappings[j], input)) ==>
      FirstMatch(r.mappings, input) == input
    by {
      if forall j :: 0 <= j < |r.mappings| ==> !Applies(r.mappings[j], input) {
        FirstMatchNone(r.mappings, input);
      }
    }
    FirstMatch(r.mappings, input)
  }

  /**
   * First match wins: when mapping `k` is the first that applies, the result
   * is `replace_all` with that mapping.
   */
  lemma {:induction false} ProcessUsesFirstMatch(r: Remapper, input: string, k: nat)
    requires k < |r.mappings| && Applies(r.mappings[k], input)
    requires forall j :: 0 <= j < k ==> !Applies(r.mappings[j], input)
    ensures Process(r, input) == ReplaceAll(r.mappings[k].search, r.mappings[k].replace, input)
  {
    FirstMatchAt(r.mappings, input, k);
  }

  lemma {:induction false} FirstMatchAt(ms: seq<Mapping>, input: string, k: nat)
    requires k < |ms| && Applies(ms[k], input)
    requires forall j :: 0 <= j < k ==> !Applies(ms[j], input)
    ensures FirstMatch(ms, input) == ReplaceAll(ms[k].search, ms[k].replace, input)
  {
    if k > 0 {
      FirstMatchAt(ms[1..], input, k - 1);
    }
  }

  /** When no mapping applies, the input comes back unchanged. */
  lemma {:induction false} ProcessNoMatch(r: Remapper, input: string)
    requires forall j :: 0 <= j < |r.mappings| ==> !Applies(r.mappings[j], input)
    ensures Process(r, input) == input
  {
    FirstMatchNone(r.mappings, input);
  }

  lemma {:induction false} FirstMatchNone(ms: seq<Mapping>, input: string)
    requires forall j :: 0 <= j < |ms| ==> !Applies(ms[j], input)
    ensures FirstMatch(ms, input) == input
  {
    if ms != [] {
      FirstMatchNone(ms[1..], input);
    }
  }

  /**
   * The mappings after the first one that applies are never consulted:
   * replacing them by any others gives the same result.
   */
  lemma {:induction false} LaterMappingsIgnored(before: seq<Mapping>, m: Mapping, after1: seq<Mapping>, after2: seq<Mapping>, input: string)
    requires Applies(m, input)
    ensures Process(Remapper(before + [m] + after1), input) == Process(Remapper(before + [m] + after2), input)
  {
    if before == [] {
      assert (before + [m] + after1)[0] == m;
      assert (before + [m] + after2)[0] == m;
    } else {
      assert (before + [m] + after1)[1..] == before[1..] + [m] + after1;
      assert (before + [m] + after2)[1..] == before[1..] + [m] + after2;
      LaterMappingsIgnored(before[1..], m, after1, after2, input);
    }
  }

  /** A remapper with no mappings is the identity. */
  lemma EmptyRemapperIsIdentity(input: string)
    ensures Process(FromMappings([]), input) == input
  {
  }

  /** `[a -> X, b -> Y]` turns "ab" into "Xb": the second rule is not applied although it matches. */
  lemma FirstMatchExample()
    ensures Process(Remapper([Mapping("a", "X", None), Mapping("b", "Y", None)]), "ab") == "Xb"
  {
    var ms := [Mapping("a", "X", None), Mapping("b", "Y", None)];
    assert "ab"[..1] == "a";
    assert Find("a", "ab") == Some(0);
    assert Applies(ms[0], "ab");
    ExpandLiteral("X", "a");
    assert "ab"[1..] == "b";
    assert "b"[..1] == "b" && "b"[1..] == "";
    assert Find("a", "") == None;
    assert Find("a", "b") == None;
    assert ReplaceAll("a", "X", "b") == "b";
    assert ReplaceAll("a", "X", "ab") == "" + "X" + "b";
  }

  /** Matching is exact-case: "Hello" does not rewrite "hello", although it matches it ignoring case. */
  lemma SearchIsCaseSensitive()
    ensures Process(Remapper([Mapping("Hello", "Bye", None)]), "hello") == "hello"
    ensures IsMatchIgnoreCase("Hello", "hello")
  {
    assert "hello"[..5] != "Hello" by { assert "hello"[0] != "Hello"[0]; }
    assert Find("Hello", "hello"[1..]) == None;
    assert !Applies(Mapping("Hello", "Bye", None), "hello");
    assert Lower("Hello") == "hello" && Lower("hello") == "hello";
    assert "hello"[..5] == "hello";
  }

  /** `for pre in preprocessors { text = pre.preprocessor().process(&text) }`. */
  function Chain(pres: seq<PreprocessorConfig>, text: string): string {
    if pres == [] then text
    else Process(PreprocessorOf(pres[|pres| - 1]), Chain(pres[..|pres| - 1], text))
  }

  /**
   * Left to right: running the chain `p + q` runs `p` first and feeds its
   * output to `q`.
   */
  lemma {:induction false} ChainAppend(p: seq<PreprocessorConfig>, q: seq<PreprocessorConfig>, text: string)
    ensures Chain(p + q, text) == Chain(q, Chain(p, text))
  {
    if q == [] {
      assert p + q == p;
    } else {
      assert (p + q)[..|p + q| - 1] == p + q[..|q| - 1];
      ChainAppend(p, q[..|q| - 1], text);
    }
  }

  /** With no preprocessors the phrase is the raw text; with one, it is that preprocessor's output. */
  lemma ChainBase(pre: PreprocessorConfig, text: string)
    ensures Chain([], text) == text
    ensures Chain([pre], text) == Process(PreprocessorOf(pre), text)
  {
  }
}
