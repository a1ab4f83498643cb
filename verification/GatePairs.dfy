/** The gate's settings: lists of workflow-file:job pairs between white space and commas. */
module GatePairs {
  import opened Wrappers
  import opened DeployGate

  /** What counts as white space: the whole class, controls and Unicode spaces included. */
  predicate IsSpace(c: char) {
    var n := c as int;
    || 0x9 <= n <= 0xD || 0x1C <= n <= 0x20 || n == 0x85 || n == 0xA0 || n == 0x1680
    || 0x2000 <= n <= 0x200A || n == 0x2028 || n == 0x2029 || n == 0x202F || n == 0x205F || n == 0x3000
  }

  predicate IsSeparator(c: char) { c == ',' || IsSpace(c) }

  /** How many characters before the first separator. */
  function WordLength(text: string): (n: nat)
    ensures n <= |text| && (forall i | 0 <= i < n :: !IsSeparator(text[i])) && (n < |text| ==> IsSeparator(text[n]))
  {
    if text == [] || IsSeparator(text[0]) then 0 else 1 + WordLength(text[1..])
  }

  /** The pieces between separators. */
  function Items(text: string): seq<string> {
    if text == [] then []
    else if IsSeparator(text[0]) then Items(text[1..])
    else [text[..WordLength(text)]] + Items(text[WordLength(text)..])
  }

  function FirstColon(item: string): (n: nat)
    ensures n <= |item| && (forall i | 0 <= i < n :: item[i] != ':') && (n < |item| ==> item[n] == ':')
  {
    if item == [] || item[0] == ':' then 0 else 1 + FirstColon(item[1..])
  }

  /** Split at the first colon; both sides must be there. */
  function PairOf(item: string): Option<Pair> {
    var n := FirstColon(item);
    if n == |item| || n == 0 || n + 1 == |item| then None else Some((item[..n], item[n + 1..]))
  }

  function PairsOf(items: seq<string>): Result<seq<Pair>, string> {
    if items == [] then Success([])
    else
      match PairsOf(items[..|items| - 1])
      case Failure(bad) => Failure(bad)
      case Success(front) =>
        match PairOf(items[|items| - 1])
        case None => Failure(items[|items| - 1])
        case Some(p) => Success(front + [p])
  }

  lemma {:induction false} FailureStays(items: seq<string>, i: nat)
    requires i <= |items| && PairsOf(items[..i]).Failure?
    ensures PairsOf(items) == PairsOf(items[..i])
    decreases |items| - i
  {
    if i < |items| {
      assert items[..i + 1][..i] == items[..i];
      FailureStays(items, i + 1);
    } else {
      assert items[..i] == items;
    }
  }

  /** `pairs`. */
  method Pairs(text: string) returns (r: Result<seq<Pair>, string>)
    ensures r == PairsOf(Items(text))
  {
    var items, out := Items(text), [];
    for i := 0 to |items|
      invariant PairsOf(items[..i]) == Success(out)
    {
      assert items[..i + 1][..i] == items[..i];
      var p := PairOf(items[i]);
      if p.None? {
        FailureStays(items, i + 1);
        return Failure(items[i]);
      }
      out := out + [p.value];
    }
    assert items[..|items|] == items;
    r := Success(out);
  }

  /** A setting is refused exactly when one of its pieces is not workflow-file:job. */
  lemma {:induction false} RefusedExactly(items: seq<string>)
    ensures PairsOf(items).Failure? <==> exists item :: item in items && PairOf(item).None?
    ensures PairsOf(items).Success? ==> |PairsOf(items).value| == |items|
  {
    if items != [] {
      var front, last := items[..|items| - 1], items[|items| - 1];
      RefusedExactly(front);
      assert items == front + [last];
    }
  }

  // ---- writing a setting and reading it ----

  predicate Plain(s: string) { s != [] && forall c | c in s :: !IsSeparator(c) }

  predicate Writable(p: Pair) { Plain(p.0) && Plain(p.1) && ':' !in p.0 }

  function ItemOf(p: Pair): string { p.0 + ":" + p.1 }

  /** The pairs with the same separators after each of them. */
  function Joined(ps: seq<Pair>, gap: string): string {
    if ps == [] then "" else ItemOf(ps[0]) + gap + Joined(ps[1..], gap)
  }

  /** The characters `\\s` stands for, one by one. */
  const SPACES := "\t\n\U{B}\U{C}\r\U{1C}\U{1D}\U{1E}\U{1F} \U{85}\U{A0}\U{1680}"
                  + "\U{2000}\U{2001}\U{2002}\U{2003}\U{2004}\U{2005}\U{2006}\U{2007}\U{2008}\U{2009}\U{200A}"
                  + "\U{2028}\U{2029}\U{202F}\U{205F}\U{3000}"

  /** Some commas and white space. */
  predicate IsGap(gap: string) { gap != "" && forall c | c in gap :: c == ',' || c in SPACES }

  lemma SpacesAre(c: char)
    ensures IsSpace(c) <==> c in SPACES
  {
    var n := c as int;
    if 0x9 <= n <= 0xD {
      assert SPACES[n - 0x9] == c;
    } else if 0x1C <= n <= 0x20 {
      assert SPACES[n - 0x1C + 5] == c;
    } else if n == 0x85 || n == 0xA0 || n == 0x1680 {
      assert SPACES[10] == '\U{85}' && SPACES[11] == '\U{A0}' && SPACES[12] == '\U{1680}';
    } else if 0x2000 <= n <= 0x200A {
      assert SPACES[n - 0x2000 + 13] == c;
    } else if IsSpace(c) {
      assert SPACES[24] == '\U{2028}' && SPACES[25] == '\U{2029}' && SPACES[26] == '\U{202F}';
      assert SPACES[27] == '\U{205F}' && SPACES[28] == '\U{3000}';
    }
  }

  lemma ItemReads(p: Pair)
    requires Writable(p)
    ensures PairOf(ItemOf(p)) == Some(p) && Plain(ItemOf(p))
  {
    var item, n := ItemOf(p), FirstColon(ItemOf(p));
    var w := |p.0|;
    assert item[w] == ':' && item[..w] == p.0 && item[w + 1..] == p.1;
    assert forall i | 0 <= i < w :: item[i] == p.0[i];
    assert n == w;
  }

  lemma GapSeparates(gap: string)
    requires IsGap(gap)
    ensures forall c | c in gap :: IsSeparator(c)
  {
    forall c | c in gap
      ensures IsSeparator(c)
    {
      SpacesAre(c);
    }
  }

  lemma {:induction false} NoItem(gap: string, rest: string)
    requires forall c | c in gap :: IsSeparator(c)
    ensures Items(gap + rest) == Items(rest)
  {
    if gap == "" {
      assert gap + rest == rest;
    } else {
      NoItem(gap[1..], rest);
      assert (gap + rest)[0] == gap[0] && (gap + rest)[1..] == gap[1..] + rest;
    }
  }

  lemma OneItem(item: string, gap: string, rest: string)
    requires Plain(item) && IsGap(gap)
    ensures Items(item + gap + rest) == [item] + Items(rest)
  {
    var text := item + gap + rest;
    var n := WordLength(text);
    GapSeparates(gap);
    assert text[|item|] == gap[0] && forall i | 0 <= i < |item| :: text[i] == item[i];
    assert n == |item|;
    assert text[..n] == item && text[n..] == gap + rest;
    NoItem(gap, rest);
  }

  lemma {:induction false} ItemsOfJoined(ps: seq<Pair>, gap: string)
    requires IsGap(gap) && forall p | p in ps :: Writable(p)
    ensures |Items(Joined(ps, gap))| == |ps| && forall i | 0 <= i < |ps| :: Items(Joined(ps, gap))[i] == ItemOf(ps[i])
  {
    if ps != [] {
      ItemReads(ps[0]);
      OneItem(ItemOf(ps[0]), gap, Joined(ps[1..], gap));
      ItemsOfJoined(ps[1..], gap);
    }
  }

  lemma {:induction false} ItemsRead(ps: seq<Pair>, items: seq<string>)
    requires |items| == |ps| && forall i | 0 <= i < |ps| :: Writable(ps[i]) && items[i] == ItemOf(ps[i])
    ensures PairsOf(items) == Success(ps)
  {
    if ps != [] {
      var n := |ps| - 1;
      ItemReads(ps[n]);
      ItemsRead(ps[..n], items[..n]);
      assert ps == ps[..n] + [ps[n]];
    }
  }

  /** What is written with commas or white space between is what is read, pair for pair and in order. */
  lemma RoundTrip(ps: seq<Pair>, gap: string)
    requires IsGap(gap) && forall p | p in ps :: Writable(p)
    ensures PairsOf(Items(Joined(ps, gap))) == Success(ps)
  {
    ItemsOfJoined(ps, gap);
    ItemsRead(ps, Items(Joined(ps, gap)));
  }

  // ---- a setting that requires nothing ----

  lemma {:induction false} NoItems(text: string)
    ensures Items(text) == [] <==> forall c | c in text :: IsSeparator(c)
  {
    if text != [] && IsSeparator(text[0]) {
      NoItems(text[1..]);
      assert text == [text[0]] + text[1..];
    }
  }

  /** The setting in force: the default stands in for a missing or empty one only. */
  function Setting(env: Option<string>, default: string): string {
    if env.None? || env.value == "" then default else env.value
  }

  /**
  A required setting of separators alone, a single comma say, is not replaced by the default and not refused: it
  requires nothing, and then every commit passes.  No other setting that is read without an error does that.
  */
  lemma CommaRequiresNothing(env: Option<string>, default: string)
    requires exists c :: c in default && !IsSeparator(c)
    ensures PairsOf(Items(Setting(env, default))) == Success([]) <==>
              env.Some? && env.value != "" && forall c | c in env.value :: IsSeparator(c)
    ensures forall a, red :: Judge(a, [], red) == Pass
  {
    var text := Setting(env, default);
    NoItems(text);
    RefusedExactly(Items(text));
    forall a, red
      ensures Judge(a, [], red) == Pass
    {
      NothingRequired(a, red);
    }
  }
}
