/** The bootstrap script: ten placeholders replaced one after the other, and the token that fetches it once. */
module Provision {
  import opened Common
  import opened Shell

  const KEYS: seq<string> := [
    "__NODE_ID__", "__FQDN__", "__IP__", "__MASTER_HOST__", "__BASE_DN__", "__REPLICATOR_PW__",
    "__CLUSTER_SECRET__", "__CA_PEM_B64__", "__SERVER_PEM_B64__", "__SERVER_KEY_B64__"]

  const NAMES: seq<string> := [
    "NODE_ID", "FQDN", "IP", "MASTER_HOST", "BASE_DN", "REPLICATOR_PW",
    "CLUSTER_SECRET", "CA_PEM_B64", "SERVER_PEM_B64", "SERVER_KEY_B64"]

  // ---------------------------------------------------------------- text replacement

  /** `s.replace(k, v)` for a k that is not empty: every occurrence from the left, not overlapping. */
  function Replace(s: string, k: string, v: string): string {
    if s == "" || k == "" then s
    else if k <= s then v + Replace(s[|k|..], k, v)
    else [s[0]] + Replace(s[1..], k, v)
  }

  predicate Occurs(k: string, s: string) {
    exists i :: 0 <= i <= |s| && k <= s[i..]
  }

  /** The replace loop after its first n placeholders. */
  function Render(s: string, keys: seq<string>, values: seq<string>, n: nat): string
    requires n <= |keys| == |values|
  {
    if n == 0 then s else Replace(Render(s, keys, values, n - 1), keys[n - 1], Shq(values[n - 1]))
  }

  /** The first of the placeholders that s begins with. */
  function KeyAt(s: string, keys: seq<string>): (k: Option<nat>)
    ensures k.Some? ==> k.value < |keys| && keys[k.value] <= s
  {
    if keys == [] then None
    else
      var n := |keys| - 1;
      var k := KeyAt(s, keys[..n]);
      if k.Some? then k else if keys[n] <= s then Some(n) else None
  }

  /** What one pass writes for the start of s, and how much of s that stands for. */
  function Head(s: string, keys: seq<string>, values: seq<string>): string
    requires |keys| == |values| && s != ""
  {
    var k := KeyAt(s, keys);
    if k.Some? then Shq(values[k.value]) else [s[0]]
  }

  function Width(s: string, keys: seq<string>): (n: nat)
    requires s != ""
    ensures 1 <= n <= |s|
  {
    var k := KeyAt(s, keys);
    if k.Some? && keys[k.value] != "" then |keys[k.value]| else 1
  }

  /** All placeholders replaced in one pass over the text. */
  function Substitute(s: string, keys: seq<string>, values: seq<string>): string
    requires |keys| == |values|
  {
    if s == "" then "" else Head(s, keys, values) + Substitute(s[Width(s, keys)..], keys, values)
  }

  lemma {:induction false} KeyIsFound(s: string, keys: seq<string>, i: nat)
    requires i < |keys| && keys[i] <= s
    ensures KeyAt(s, keys).Some?
  {
    var n := |keys| - 1;
    if i < n {
      KeyIsFound(s, keys[..n], i);
    }
  }

  // ---------------------------------------------------------------- placeholders

  /** Two underscores at both ends, none doubled in between, no quote. */
  predicate IsPlaceholder(k: string) {
    && |k| >= 5
    && k[0] == '_' && k[1] == '_' && k[|k| - 2] == '_' && k[|k| - 1] == '_'
    && (forall i :: 1 <= i < |k| - 2 ==> !(k[i] == '_' && k[i + 1] == '_'))
    && '\'' !in k
  }

  ghost predicate Placeholders(keys: seq<string>) {
    && (forall i :: 0 <= i < |keys| ==> IsPlaceholder(keys[i]))
    && (forall i, j :: 0 <= i < j < |keys| ==> keys[i] != keys[j])
  }

  lemma TheTenArePlaceholders()
    ensures Placeholders(KEYS)
  {
    forall i | 0 <= i < |KEYS| ensures IsPlaceholder(KEYS[i]) {
      OneOfTheTen(i);
    }
    assert |KEYS[0]| == |KEYS[4]| == 11 && |KEYS[1]| == 8 && |KEYS[2]| == 6 && |KEYS[3]| == 15;
    assert |KEYS[5]| == 17 && |KEYS[6]| == |KEYS[8]| == |KEYS[9]| == 18 && |KEYS[7]| == 14;
    assert KEYS[0][2] != KEYS[4][2] && KEYS[6][2] != KEYS[8][2] && KEYS[6][2] != KEYS[9][2] && KEYS[8][9] != KEYS[9][9];
  }

  /** Each placeholder is its variable's name between double underscores. */
  lemma PlaceholderOfName(i: nat)
    requires i < |KEYS|
    ensures |NAMES| == |KEYS| && KEYS[i] == "__" + NAMES[i] + "__"
  {
    if i < 5 {
      FirstPlaceholders(i);
    } else {
      LastPlaceholders(i);
    }
  }

  lemma FirstPlaceholders(i: nat)
    requires i < 5
    ensures KEYS[i] == "__" + NAMES[i] + "__"
  {
    if i == 0 { assert KEYS[0] == "__" + "NODE_ID" + "__"; }
    if i == 1 { assert KEYS[1] == "__" + "FQDN" + "__"; }
    if i == 2 { assert KEYS[2] == "__" + "IP" + "__"; }
    if i == 3 { assert KEYS[3] == "__" + "MASTER_HOST" + "__"; }
  }

  lemma LastPlaceholders(i: nat)
    requires 5 <= i < |KEYS|
    ensures KEYS[i] == "__" + NAMES[i] + "__"
  {
    if i == 5 { assert KEYS[5] == "__" + "REPLICATOR_PW" + "__"; }
    if i == 6 { assert KEYS[6] == "__" + "CLUSTER_SECRET" + "__"; }
    if i == 7 { assert KEYS[7] == "__" + "CA_PEM_B64" + "__"; }
    if i == 8 { assert KEYS[8] == "__" + "SERVER_PEM_B64" + "__"; }
  }

  lemma OneOfTheTen(i: nat)
    requires i < |KEYS|
    ensures IsPlaceholder(KEYS[i])
  {
    if i < 5 {
      OneOfTheFirstFive(i);
    } else {
      OneOfTheLastFive(i);
    }
  }

  lemma OneOfTheFirstFive(i: nat)
    requires i < 5
    ensures IsPlaceholder(KEYS[i])
  {
  }

  lemma OneOfTheLastFive(i: nat)
    requires 5 <= i < |KEYS|
    ensures IsPlaceholder(KEYS[i])
  {
  }

  /** No placeholder lies inside another one. */
  lemma PlaceholdersApart(k: string, k': string)
    requires IsPlaceholder(k) && IsPlaceholder(k') && Occurs(k, k')
    ensures k == k'
  {
    var i :| 0 <= i <= |k'| && k <= k'[i..];
    var n := |k|;
    assert k'[i..][0] == k[0] && k'[i..][1] == k[1];
    assert i == 0;
    assert k'[i..][n - 2] == k[n - 2] && k'[i..][n - 1] == k[n - 1];
    assert n - 2 == |k'| - 2;
  }

  lemma {:induction false} ReplaceNothing(s: string, k: string, v: string)
    requires !Occurs(k, s)
    ensures Replace(s, k, v) == s
  {
    if s != "" {
      assert s[0..] == s;
      OccursInTail(k, s, 1);
      ReplaceNothing(s[1..], k, v);
    }
  }

  lemma OccursInTail(k: string, s: string, n: nat)
    requires n <= |s|
    ensures Occurs(k, s[n..]) ==> Occurs(k, s)
  {
    if Occurs(k, s[n..]) {
      var i :| 0 <= i <= |s[n..]| && k <= s[n..][i..];
      assert s[n..][i..] == s[n + i..];
    }
  }

  /** What contains no quote cannot begin left of a quote and end right of it. */
  lemma PrefixStopsAtQuote(k: string, a: string, b: string)
    requires '\'' !in k
    ensures k <= a + "'" + b <==> k <= a
  {
    var s := a + "'" + b;
    if |k| <= |a| {
      assert s[..|k|] == a[..|k|];
    } else {
      assert s[|a|] == '\'';
      assert k[|a|] != s[|a|];
    }
  }

  lemma ReplaceNext(s: string, k: string, v: string)
    requires k != "" && s != ""
    ensures k <= s ==> Replace(s, k, v) == v + Replace(s[|k|..], k, v)
    ensures !(k <= s) ==> Replace(s, k, v) == [s[0]] + Replace(s[1..], k, v)
  {
  }

  lemma Regroup(head: string, x: string, y: string)
    ensures head + (x + "'" + y) == (head + x) + "'" + y
  {
  }

  lemma {:induction false} ReplaceSplits(a: string, b: string, k: string, v: string)
    requires k != "" && '\'' !in k
    ensures Replace(a + "'" + b, k, v) == Replace(a, k, v) + "'" + Replace(b, k, v)
  {
    var s := a + "'" + b;
    PrefixStopsAtQuote(k, a, b);
    ReplaceNext(s, k, v);
    if a == "" {
      assert s[1..] == b;
    } else {
      ReplaceNext(a, k, v);
      var n, head := if k <= a then |k| else 1, if k <= a then v else [a[0]];
      assert s[n..] == a[n..] + "'" + b;
      ReplaceSplits(a[n..], b, k, v);
      Regroup(head, Replace(a[n..], k, v), Replace(b, k, v));
    }
  }

  lemma OccursSplits(a: string, b: string, k: string)
    requires '\'' !in k && k != ""
    ensures Occurs(k, a + "'" + b) <==> Occurs(k, a) || Occurs(k, b)
  {
    var s := a + "'" + b;
    if Occurs(k, s) {
      var i :| 0 <= i <= |s| && k <= s[i..];
      if i <= |a| {
        assert s[i..] == a[i..] + "'" + b;
        PrefixStopsAtQuote(k, a[i..], b);
      } else {
        assert s[i..] == b[i - |a| - 1..];
      }
    }
    if Occurs(k, a) {
      var i :| 0 <= i <= |a| && k <= a[i..];
      PrefixStopsAtQuote(k, a[i..], b);
      assert s[i..] == a[i..] + "'" + b;
    }
    if Occurs(k, b) {
      assert s[|a| + 1..] == b;
      OccursInTail(k, s, |a| + 1);
    }
  }

  lemma OccursFirst(k: string, s: string)
    requires k != "" && s != ""
    ensures Occurs(k, s) <==> k <= s || Occurs(k, s[1..])
  {
    OccursInTail(k, s, 1);
    assert s[0..] == s;
    if Occurs(k, s) {
      var i :| 0 <= i <= |s| && k <= s[i..];
      assert i > 0 ==> s[i..] == s[1..][i - 1..];
    }
  }

  lemma OccursBehindQuote(k: string, x: string)
    requires IsPlaceholder(k)
    ensures Occurs(k, "'\\''" + x) <==> Occurs(k, x)
  {
    var one := "'" + x;
    var two := "\\" + "'" + one;
    assert one == "" + "'" + x && "'\\''" + x == "" + "'" + two;
    OccursSplits("", two, k);
    OccursSplits("\\", one, k);
    OccursSplits("", x, k);
    assert forall i :: 0 <= i <= 1 ==> |"\\"[i..]| < |k|;
  }

  /** Quoting a value neither makes nor breaks an occurrence of a placeholder. */
  lemma {:induction false} QuotedOccurs(k: string, v: string)
    requires IsPlaceholder(k)
    ensures Occurs(k, Shq(v)) <==> Occurs(k, v)
  {
    if v != "" {
      QuotedOccurs(k, v[1..]);
      OccursFirst(k, v);
      if v[0] == '\'' {
        OccursBehindQuote(k, Shq(v[1..]));
      } else {
        OccursFirst(k, Shq(v));
        PrefixOfQuoted(k, v);
        assert Shq(v)[1..] == Shq(v[1..]);
      }
    }
  }

  // ---------------------------------------------------------------- a template between quotes

  /** The text with these pieces between its quote characters. */
  function Join(pieces: seq<string>): string
    requires pieces != []
  {
    if |pieces| == 1 then pieces[0] else pieces[0] + "'" + Join(pieces[1..])
  }

  /** Between two quotes stands a placeholder alone, or text with no placeholder. */
  ghost predicate PieceOk(piece: string, keys: seq<string>) {
    '\'' !in piece && (piece in keys || forall i :: 0 <= i < |keys| ==> !Occurs(keys[i], piece))
  }

  ghost predicate Template(pieces: seq<string>, keys: seq<string>) {
    pieces != [] && forall i :: 0 <= i < |pieces| ==> PieceOk(pieces[i], keys)
  }

  function Fill(piece: string, keys: seq<string>, values: seq<string>): string
    requires |keys| == |values|
  {
    if keys == [] then piece
    else if piece == keys[|keys| - 1] then Shq(values[|keys| - 1])
    else Fill(piece, keys[..|keys| - 1], values[..|keys| - 1])
  }

  function FillAll(pieces: seq<string>, keys: seq<string>, values: seq<string>): seq<string>
    requires |keys| == |values|
  {
    seq(|pieces|, i requires 0 <= i < |pieces| => Fill(pieces[i], keys, values))
  }

  /** No value contains a placeholder that is replaced after its own. */
  ghost predicate NoLater(keys: seq<string>, values: seq<string>) {
    |keys| == |values| && forall i, j :: 0 <= i < j < |keys| ==> !Occurs(keys[j], values[i])
  }

  lemma {:induction false} FillIsNth(keys: seq<string>, values: seq<string>, j: nat)
    requires Placeholders(keys) && |keys| == |values| && j < |keys|
    ensures Fill(keys[j], keys, values) == Shq(values[j])
  {
    var n := |keys| - 1;
    if j < n {
      FillIsNth(keys[..n], values[..n], j);
    }
  }

  lemma {:induction false} FillIsNothing(piece: string, keys: seq<string>, values: seq<string>)
    requires |keys| == |values| && piece !in keys
    ensures Fill(piece, keys, values) == piece
  {
    if keys != [] {
      assert piece != keys[|keys| - 1];
      FillIsNothing(piece, keys[..|keys| - 1], values[..|keys| - 1]);
    }
  }

  lemma ReplaceWhole(k: string, v: string)
    requires k != ""
    ensures Replace(k, k, v) == v
  {
    assert k[|k|..] == "" && v + "" == v;
  }

  lemma NotInside(k: string, k': string)
    requires IsPlaceholder(k) && IsPlaceholder(k') && k != k'
    ensures !Occurs(k, k')
  {
    if Occurs(k, k') {
      PlaceholdersApart(k, k');
    }
  }

  /** Placeholders that do not occur in a text leave it alone. */
  lemma {:induction false} RenderPlain(piece: string, keys: seq<string>, values: seq<string>, n: nat)
    requires Placeholders(keys) && |keys| == |values| && n <= |keys|
    requires forall i :: 0 <= i < n ==> !Occurs(keys[i], piece)
    ensures Render(piece, keys, values, n) == piece
  {
    if n > 0 {
      RenderPlain(piece, keys, values, n - 1);
      ReplaceNothing(piece, keys[n - 1], Shq(values[n - 1]));
    }
  }

  lemma Associative(a: string, b: string, c: string)
    ensures (a + b) + c == a + (b + c)
  {
  }

  lemma {:induction false} QuotingConcat(a: string, b: string)
    ensures Shq(a + b) == Shq(a) + Shq(b)
  {
    if a == "" {
      assert a + b == b && Shq(a) + Shq(b) == Shq(b);
    } else {
      QuotingConcat(a[1..], b);
      var first := if a[0] == '\'' then "'\\''" else [a[0]];
      assert (a + b)[0] == a[0] && (a + b)[1..] == a[1..] + b;
      Associative(first, Shq(a[1..]), Shq(b));
    }
  }

  /** What contains no quote stands at the start of a quoted value exactly when it stands at the start of the value. */
  lemma {:induction false} PrefixOfQuoted(k: string, v: string)
    requires '\'' !in k
    ensures k <= Shq(v) <==> k <= v
  {
    if k != "" && v != "" && v[0] != '\'' {
      PrefixOfQuoted(k[1..], v[1..]);
      assert Shq(v)[1..] == Shq(v[1..]);
      assert k == [k[0]] + k[1..] && v == [v[0]] + v[1..] && Shq(v) == [v[0]] + Shq(v[1..]);
      assert k <= v <==> k[0] == v[0] && k[1..] <= v[1..];
      assert k <= Shq(v) <==> k[0] == v[0] && k[1..] <= Shq(v[1..]);
    }
  }

  lemma ReplaceBehind(k: string, x: string, w: string)
    requires IsPlaceholder(k)
    ensures Replace("'" + x, k, w) == "'" + Replace(x, k, w)
    ensures Replace("\\'" + x, k, w) == "\\'" + Replace(x, k, w)
  {
    assert "" + "'" + x == "'" + x;
    ReplaceSplits("", x, k, w);
    assert "\\" + "'" + x == "\\'" + x;
    ReplaceSplits("\\", x, k, w);
    assert Replace("\\", k, w) == ['\\'] + Replace("", k, w);
  }

  /** An escaped quote is no part of a placeholder. */
  lemma ReplaceBehindQuote(k: string, x: string, w: string)
    requires IsPlaceholder(k)
    ensures Replace("'\\''" + x, k, w) == "'\\''" + Replace(x, k, w)
  {
    var one := "'" + x;
    var two := "\\'" + one;
    ReplaceBehind(k, x, w);
    ReplaceBehind(k, one, w);
    ReplaceBehind(k, two, w);
    assert "'\\''" + x == "'" + two;
    assert "'\\''" + Replace(x, k, w) == "'" + ("\\'" + ("'" + Replace(x, k, w)));
  }

  /** Replacing by a quoted value inside a quoted value is quoting the replaced value. */
  lemma {:induction false} ReplaceInQuoted(v: string, k: string, w: string)
    requires IsPlaceholder(k)
    ensures Replace(Shq(v), k, Shq(w)) == Shq(Replace(v, k, w))
  {
    if v != "" {
      PrefixOfQuoted(k, v);
      if k <= v {
        var rest := v[|k|..];
        assert v == k + rest;
        QuotingConcat(k, rest);
        NothingToQuote(k);
        assert Shq(v)[|k|..] == Shq(rest);
        ReplaceInQuoted(rest, k, w);
        QuotingConcat(w, Replace(rest, k, w));
      } else if v[0] == '\'' {
        ReplaceInQuoted(v[1..], k, w);
        ReplaceBehindQuote(k, Shq(v[1..]), Shq(w));
        assert Shq(v) == "'\\''" + Shq(v[1..]);
        assert (['\''] + Replace(v[1..], k, w))[1..] == Replace(v[1..], k, w);
      } else {
        ReplaceInQuoted(v[1..], k, w);
        assert Shq(v)[1..] == Shq(v[1..]);
        assert ([v[0]] + Replace(v[1..], k, w))[1..] == Replace(v[1..], k, w);
      }
    }
  }

  lemma {:induction false} NothingToQuote(v: string)
    requires '\'' !in v
    ensures Shq(v) == v
  {
    if v != "" {
      NothingToQuote(v[1..]);
      assert v == [v[0]] + v[1..];
    }
  }

  /** A text once the placeholders from number `from` to before `n` are replaced in it, one after the other. */
  function Expand(v: string, keys: seq<string>, values: seq<string>, from: nat, n: nat): string
    requires n <= |keys| == |values|
  {
    if n <= from then v else Replace(Expand(v, keys, values, from, n - 1), keys[n - 1], values[n - 1])
  }

  /** What the loop makes of each value: the placeholders after its own are replaced in it. */
  function Final(keys: seq<string>, values: seq<string>): (r: seq<string>)
    requires |keys| == |values|
  {
    seq(|keys|, i requires 0 <= i < |keys| => Expand(values[i], keys, values, i + 1, |keys|))
  }

  /** A piece that is placeholder j is replaced in turn j, and the later turns go on in its value. */
  lemma {:induction false} RenderKey(keys: seq<string>, values: seq<string>, j: nat, n: nat)
    requires Placeholders(keys) && |keys| == |values| && j < n <= |keys|
    ensures Render(keys[j], keys, values, n) == Shq(Expand(values[j], keys, values, j + 1, n))
  {
    if n == j + 1 {
      forall i | 0 <= i < j ensures !Occurs(keys[i], keys[j]) {
        NotInside(keys[i], keys[j]);
      }
      RenderPlain(keys[j], keys, values, j);
      ReplaceWhole(keys[j], Shq(values[j]));
    } else {
      RenderKey(keys, values, j, n - 1);
      ReplaceInQuoted(Expand(values[j], keys, values, j + 1, n - 1), keys[n - 1], values[n - 1]);
    }
  }

  lemma {:induction false} ExpandNothing(v: string, keys: seq<string>, values: seq<string>, from: nat, n: nat)
    requires n <= |keys| == |values|
    requires forall j :: from <= j < n ==> !Occurs(keys[j], v)
    ensures Expand(v, keys, values, from, n) == v
  {
    if n > from {
      ExpandNothing(v, keys, values, from, n - 1);
      ReplaceNothing(v, keys[n - 1], values[n - 1]);
    }
  }

  lemma NoLaterIsFinal(keys: seq<string>, values: seq<string>)
    requires NoLater(keys, values)
    ensures Final(keys, values) == values
  {
    forall i | 0 <= i < |keys| ensures Final(keys, values)[i] == values[i] {
      ExpandNothing(values[i], keys, values, i + 1, |keys|);
    }
  }

  lemma KeysOccurInThemselves(piece: string, keys: seq<string>)
    requires forall i :: 0 <= i < |keys| ==> !Occurs(keys[i], piece)
    ensures piece !in keys
  {
    assert piece[0..] == piece;
    assert Occurs(piece, piece);
  }

  lemma RenderPiece(piece: string, keys: seq<string>, values: seq<string>)
    requires Placeholders(keys) && |keys| == |values| && PieceOk(piece, keys)
    ensures Render(piece, keys, values, |keys|) == Fill(piece, keys, Final(keys, values))
  {
    if piece in keys {
      var j :| 0 <= j < |keys| && keys[j] == piece;
      RenderKey(keys, values, j, |keys|);
      FillIsNth(keys, Final(keys, values), j);
    } else {
      RenderPlain(piece, keys, values, |keys|);
      FillIsNothing(piece, keys, Final(keys, values));
    }
  }

  lemma {:induction false} RenderSplits(a: string, b: string, keys: seq<string>, values: seq<string>, n: nat)
    requires Placeholders(keys) && |keys| == |values| && n <= |keys|
    ensures Render(a + "'" + b, keys, values, n) == Render(a, keys, values, n) + "'" + Render(b, keys, values, n)
  {
    if n > 0 {
      RenderSplits(a, b, keys, values, n - 1);
      ReplaceSplits(Render(a, keys, values, n - 1), Render(b, keys, values, n - 1), keys[n - 1], Shq(values[n - 1]));
    }
  }

  /** What the loop makes of any template, for any values. */
  lemma {:induction false} RenderFills(pieces: seq<string>, keys: seq<string>, values: seq<string>)
    requires Placeholders(keys) && |keys| == |values| && Template(pieces, keys)
    ensures Render(Join(pieces), keys, values, |keys|) == Join(FillAll(pieces, keys, Final(keys, values)))
  {
    RenderPiece(pieces[0], keys, values);
    if |pieces| > 1 {
      RenderSplits(pieces[0], Join(pieces[1..]), keys, values, |keys|);
      RenderFills(pieces[1..], keys, values);
      assert FillAll(pieces, keys, Final(keys, values))[1..] == FillAll(pieces[1..], keys, Final(keys, values));
    }
  }

  ghost predicate Quoteless(keys: seq<string>) {
    forall i :: 0 <= i < |keys| ==> '\'' !in keys[i] && keys[i] != ""
  }

  lemma {:induction false} SamePrefixKey(a: string, b: string, keys: seq<string>)
    requires Quoteless(keys)
    ensures KeyAt(a + "'" + b, keys) == KeyAt(a, keys)
  {
    if keys != [] {
      SamePrefixKey(a, b, keys[..|keys| - 1]);
      PrefixStopsAtQuote(keys[|keys| - 1], a, b);
    }
  }

  lemma SubstituteAtQuote(b: string, keys: seq<string>, values: seq<string>)
    requires Quoteless(keys) && |keys| == |values|
    ensures Substitute("'" + b, keys, values) == "'" + Substitute(b, keys, values)
  {
    SameHead("", b, keys, values);
    assert "" + "'" + b == "'" + b && ("'" + b)[1..] == b;
  }

  lemma SubstituteNext(s: string, keys: seq<string>, values: seq<string>, rest: string)
    requires |keys| == |values| && s != "" && rest == s[Width(s, keys)..]
    ensures Substitute(s, keys, values) == Head(s, keys, values) + Substitute(rest, keys, values)
  {
  }

  lemma {:induction false} SubstituteSplits(a: string, b: string, keys: seq<string>, values: seq<string>)
    requires Quoteless(keys) && |keys| == |values|
    ensures Substitute(a + "'" + b, keys, values) == Substitute(a, keys, values) + "'" + Substitute(b, keys, values)
  {
    if a == "" {
      assert a + "'" + b == "'" + b;
      SubstituteAtQuote(b, keys, values);
    } else {
      var rest := a[Width(a, keys)..];
      SameHead(a, b, keys, values);
      assert (a + "'" + b)[Width(a, keys)..] == rest + "'" + b;
      SubstituteNext(a, keys, values, rest);
      SubstituteNext(a + "'" + b, keys, values, rest + "'" + b);
      SubstituteSplits(rest, b, keys, values);
      Regroup(Head(a, keys, values), Substitute(rest, keys, values), Substitute(b, keys, values));
    }
  }

  lemma SameHead(a: string, b: string, keys: seq<string>, values: seq<string>)
    requires Quoteless(keys) && |keys| == |values|
    ensures a != "" ==>
            Width(a + "'" + b, keys) == Width(a, keys) && Head(a + "'" + b, keys, values) == Head(a, keys, values)
    ensures a == "" ==> Width(a + "'" + b, keys) == 1 && Head(a + "'" + b, keys, values) == "'"
  {
    SamePrefixKey(a, b, keys);
  }

  lemma {:induction false} SubstitutePlain(piece: string, keys: seq<string>, values: seq<string>)
    requires Placeholders(keys) && |keys| == |values|
    requires forall i :: 0 <= i < |keys| ==> !Occurs(keys[i], piece)
    ensures Substitute(piece, keys, values) == piece
  {
    if piece != "" {
      assert piece[0..] == piece;
      forall i | 0 <= i < |keys| ensures !Occurs(keys[i], piece[1..]) {
        OccursInTail(keys[i], piece, 1);
      }
      SubstitutePlain(piece[1..], keys, values);
    }
  }

  lemma SubstitutePiece(piece: string, keys: seq<string>, values: seq<string>)
    requires Placeholders(keys) && |keys| == |values| && PieceOk(piece, keys)
    ensures Substitute(piece, keys, values) == Fill(piece, keys, values)
  {
    if piece in keys {
      var j :| 0 <= j < |keys| && keys[j] == piece;
      KeyIsFound(piece, keys, j);
      var k := KeyAt(piece, keys).value;
      assert keys[k] <= piece[0..];
      PlaceholdersApart(keys[k], piece);
      FillIsNth(keys, values, j);
      assert piece[|piece|..] == "" && Shq(values[j]) + "" == Shq(values[j]);
    } else {
      SubstitutePlain(piece, keys, values);
      FillIsNothing(piece, keys, values);
    }
  }

  lemma {:induction false} SubstituteFills(pieces: seq<string>, keys: seq<string>, values: seq<string>)
    requires Placeholders(keys) && |keys| == |values| && Template(pieces, keys)
    ensures Substitute(Join(pieces), keys, values) == Join(FillAll(pieces, keys, values))
  {
    SubstitutePiece(pieces[0], keys, values);
    if |pieces| > 1 {
      SubstituteSplits(pieces[0], Join(pieces[1..]), keys, values);
      SubstituteFills(pieces[1..], keys, values);
      assert FillAll(pieces, keys, values)[1..] == FillAll(pieces[1..], keys, values);
    }
  }

  /**
   * When no value contains a placeholder that comes after its own, the sequential loop does what one
   * simultaneous pass would do.
   */
  lemma LoopIsSimultaneous(pieces: seq<string>, keys: seq<string>, values: seq<string>)
    requires Placeholders(keys) && NoLater(keys, values) && Template(pieces, keys)
    ensures Render(Join(pieces), keys, values, |keys|) == Substitute(Join(pieces), keys, values)
  {
    RenderFills(pieces, keys, values);
    NoLaterIsFinal(keys, values);
    SubstituteFills(pieces, keys, values);
  }

  lemma {:induction false} FilledHasNoKey(pieces: seq<string>, keys: seq<string>, values: seq<string>, k: string)
    requires Placeholders(keys) && |keys| == |values| && Template(pieces, keys) && k in keys
    requires forall i :: 0 <= i < |values| ==> !Occurs(k, values[i])
    ensures !Occurs(k, Join(FillAll(pieces, keys, values)))
  {
    var filled := FillAll(pieces, keys, values);
    if pieces[0] in keys {
      var j :| 0 <= j < |keys| && keys[j] == pieces[0];
      FillIsNth(keys, values, j);
      QuotedOccurs(k, values[j]);
    } else {
      FillIsNothing(pieces[0], keys, values);
    }
    if |pieces| > 1 {
      FilledHasNoKey(pieces[1..], keys, values, k);
      assert filled[1..] == FillAll(pieces[1..], keys, values);
      OccursSplits(filled[0], Join(filled[1..]), k);
    }
  }

  /** When no value contains any of the placeholders, none is left in the script. */
  lemma NoPlaceholderIsLeft(pieces: seq<string>, keys: seq<string>, values: seq<string>)
    requires Placeholders(keys) && |keys| == |values| && Template(pieces, keys)
    requires forall i, j :: 0 <= i < |values| && 0 <= j < |keys| ==> !Occurs(keys[j], values[i])
    ensures forall j :: 0 <= j < |keys| ==> !Occurs(keys[j], Render(Join(pieces), keys, values, |keys|))
  {
    RenderFills(pieces, keys, values);
    NoLaterIsFinal(keys, values);
    forall j | 0 <= j < |keys| ensures !Occurs(keys[j], Render(Join(pieces), keys, values, |keys|)) {
      FilledHasNoKey(pieces, keys, values, keys[j]);
    }
  }

  // ---------------------------------------------------------------- the assignments of the script

  /** One assignment a line: a newline, NAME=, and the quoted word. */
  function Block(names: seq<string>, words: seq<string>): string
    requires |names| == |words|
  {
    if names == [] then "" else "\n" + names[0] + "=" + "'" + (words[0] + "'" + Block(names[1..], words[1..]))
  }

  function Pieces(names: seq<string>, words: seq<string>): (p: seq<string>)
    requires |names| == |words|
    ensures p != []
  {
    if names == [] then [""] else ["\n" + names[0] + "=", words[0]] + Pieces(names[1..], words[1..])
  }

  lemma {:induction false} BlockIsJoin(names: seq<string>, words: seq<string>)
    requires |names| == |words|
    ensures Join(Pieces(names, words)) == Block(names, words)
  {
    if names != [] {
      BlockIsJoin(names[1..], words[1..]);
      var p := Pieces(names, words);
      assert p[1..][1..] == Pieces(names[1..], words[1..]);
    }
  }

  function Quoted(values: seq<string>): seq<string> {
    seq(|values|, i requires 0 <= i < |values| => Shq(values[i]))
  }

  predicate PlainName(name: string) {
    name != "" && '\'' !in name && '=' !in name && '\n' !in name && NoDouble(name)
  }

  predicate NoDouble(s: string) {
    forall i :: 0 <= i < |s| - 1 ==> !(s[i] == '_' && s[i + 1] == '_')
  }

  lemma KeyBringsDouble(s: string, k: string)
    requires IsPlaceholder(k) && Occurs(k, s)
    ensures !NoDouble(s)
  {
    var i :| 0 <= i <= |s| && k <= s[i..];
    assert s[i..][0] == k[0] && s[i..][1] == k[1];
    assert s[i] == '_' && s[i + 1] == '_';
  }

  lemma NameHasNoKey(name: string, k: string)
    requires PlainName(name) && IsPlaceholder(k)
    ensures !Occurs(k, "\n" + name + "=") && '\'' !in "\n" + name + "="
  {
    var s := "\n" + name + "=";
    assert NoDouble(s) by {
      forall i | 0 <= i < |s| - 1 ensures !(s[i] == '_' && s[i + 1] == '_') {
        assert 1 <= i < |name| ==> s[i] == name[i - 1] && s[i + 1] == name[i];
      }
    }
    if Occurs(k, s) {
      KeyBringsDouble(s, k);
    }
  }

  /** Filling the block of the placeholders k.. gives the block of their quoted values. */
  lemma {:induction false} FillPieces(names: seq<string>, keys: seq<string>, values: seq<string>, from: nat)
    requires Placeholders(keys) && |names| == |keys| == |values| && from <= |keys|
    requires forall i :: 0 <= i < |names| ==> PlainName(names[i])
    ensures Template(Pieces(names[from..], keys[from..]), keys)
    ensures FillAll(Pieces(names[from..], keys[from..]), keys, values) == Pieces(names[from..], Quoted(values)[from..])
    decreases |keys| - from
  {
    var p := Pieces(names[from..], keys[from..]);
    if from == |keys| {
      forall i | 0 <= i < |keys| ensures !Occurs(keys[i], "") && keys[i] != "" {
      }
      FillIsNothing("", keys, values);
    } else {
      FillPieces(names, keys, values, from + 1);
      var rest := Pieces(names[from + 1..], keys[from + 1..]);
      assert names[from..][1..] == names[from + 1..] && keys[from..][1..] == keys[from + 1..];
      assert Quoted(values)[from..][1..] == Quoted(values)[from + 1..];
      var head := "\n" + names[from] + "=";
      assert p == [head, keys[from]] + rest;
      forall i | 0 <= i < |keys| ensures !Occurs(keys[i], head) && '\'' !in head {
        NameHasNoKey(names[from], keys[i]);
      }
      KeysOccurInThemselves(head, keys);
      FillIsNothing(head, keys, values);
      FillIsNth(keys, values, from);
      assert FillAll(p, keys, values) == [head, Shq(values[from])] + FillAll(rest, keys, values);
      forall i | 0 <= i < |p| ensures PieceOk(p[i], keys) {
        assert i >= 2 ==> p[i] == rest[i - 2];
      }
    }
  }

  /** One assignment: a newline, the name, and its word as the shell reads it. */
  function ReadLine(s: string): Option<(string, Word)> {
    if s == "" || s[0] != '\n' || FirstEq(s[1..]) == None then None
    else
      var n := FirstEq(s[1..]).value;
      var w := ReadWord(s[n + 2..], false);
      if w == None then None else Some((s[1..n + 1], w.value))
  }

  /** What the shell assigns, line by line. */
  function ReadBlock(s: string): Option<seq<(string, string)>>
    decreases |s|
  {
    if s == "" then Some([])
    else
      var line := ReadLine(s);
      if line == None || |line.value.1.rest| >= |s| then None
      else
        var rest := ReadBlock(line.value.1.rest);
        if rest == None then None else Some([(line.value.0, line.value.1.value)] + rest.value)
  }

  function FirstEq(s: string): (n: Option<nat>)
    ensures n.Some? ==> n.value < |s|
  {
    if s == "" then None
    else if s[0] == '=' then Some(0)
    else
      var n := FirstEq(s[1..]);
      if n.Some? then Some(n.value + 1) else None
  }

  function Pairs(names: seq<string>, values: seq<string>): seq<(string, string)>
    requires |names| == |values|
  {
    seq(|names|, i requires 0 <= i < |names| => (names[i], values[i]))
  }

  lemma {:induction false} FirstEqAfterName(name: string, tail: string)
    requires '=' !in name
    ensures FirstEq(name + "=" + tail) == Some(|name|)
  {
    if name != "" {
      FirstEqAfterName(name[1..], tail);
      assert (name + "=" + tail)[1..] == name[1..] + "=" + tail;
    }
  }

  /** One assignment reads back. */
  lemma LineReadsBack(name: string, v: string, rest: string)
    requires PlainName(name) && '\0' !in v && ReadWord(rest, false) == Some(Word("", rest))
    ensures ReadLine("\n" + name + "=" + "'" + (Shq(v) + "'" + rest)) == Some((name, Word(v, rest)))
  {
    var word := Shq(v) + "'" + rest;
    var s := "\n" + name + "=" + "'" + word;
    assert s[1..] == name + "=" + ("'" + word);
    FirstEqAfterName(name, "'" + word);
    assert s[|name| + 2..] == "'" + word;
    WordReadsBack(v, rest);
    assert s[1..|name| + 1] == name;
  }

  lemma WordReadsBack(v: string, rest: string)
    requires '\0' !in v && ReadWord(rest, false) == Some(Word("", rest))
    ensures ReadWord("'" + (Shq(v) + "'" + rest), false) == Some(Word(v, rest))
  {
    var word := Shq(v) + "'" + rest;
    assert ("'" + word)[1..] == word;
    QuotedReadsBack(v, rest);
    assert v + "" == v;
  }

  lemma NewlineEndsWord(names: seq<string>, words: seq<string>)
    requires |names| == |words|
    ensures ReadWord(Block(names, words), false) == Some(Word("", Block(names, words)))
  {
  }

  /** One line more in front of a block that reads back. */
  lemma BlockNext(name: string, v: string, rest: string, pairs: seq<(string, string)>)
    requires PlainName(name) && '\0' !in v && ReadWord(rest, false) == Some(Word("", rest))
    requires ReadBlock(rest) == Some(pairs)
    ensures ReadBlock("\n" + name + "=" + "'" + (Shq(v) + "'" + rest)) == Some([(name, v)] + pairs)
  {
    LineReadsBack(name, v, rest);
  }

  lemma FirstLine(names: seq<string>, values: seq<string>)
    requires |names| == |values| && names != []
    ensures Block(names, Quoted(values)) ==
            "\n" + names[0] + "=" + "'" + (Shq(values[0]) + "'" + Block(names[1..], Quoted(values[1..])))
    ensures Pairs(names, values) == [(names[0], values[0])] + Pairs(names[1..], values[1..])
  {
    assert Quoted(values)[1..] == Quoted(values[1..]);
  }

  lemma {:induction false} BlockReadsBack(names: seq<string>, values: seq<string>)
    requires |names| == |values|
    requires forall i :: 0 <= i < |names| ==> PlainName(names[i]) && '\0' !in values[i]
    ensures ReadBlock(Block(names, Quoted(values))) == Some(Pairs(names, values))
  {
    if names != [] {
      var rest := Block(names[1..], Quoted(values[1..]));
      BlockReadsBack(names[1..], values[1..]);
      NewlineEndsWord(names[1..], Quoted(values[1..]));
      BlockNext(names[0], values[0], rest, Pairs(names[1..], values[1..]));
      FirstLine(names, values);
    } else {
      assert Pairs(names, values) == [];
    }
  }

  lemma {:induction false} ReplaceBringsNoNul(v: string, k: string, w: string)
    requires '\0' !in v && '\0' !in w
    ensures '\0' !in Replace(v, k, w)
  {
    if v != "" && k != "" {
      ReplaceBringsNoNul(v[if k <= v then |k| else 1..], k, w);
    }
  }

  lemma {:induction false} ExpandBringsNoNul(v: string, keys: seq<string>, values: seq<string>, from: nat, n: nat)
    requires n <= |keys| == |values| && '\0' !in v && forall i :: 0 <= i < |values| ==> '\0' !in values[i]
    ensures '\0' !in Expand(v, keys, values, from, n)
  {
    if n > from {
      ExpandBringsNoNul(v, keys, values, from, n - 1);
      ReplaceBringsNoNul(Expand(v, keys, values, from, n - 1), keys[n - 1], values[n - 1]);
    }
  }

  lemma RenderBlock(names: seq<string>, keys: seq<string>, values: seq<string>)
    requires Placeholders(keys) && |names| == |keys| == |values|
    requires forall i :: 0 <= i < |names| ==> PlainName(names[i])
    ensures Render(Block(names, keys), keys, values, |keys|) == Block(names, Quoted(Final(keys, values)))
  {
    var final := Final(keys, values);
    FillPieces(names, keys, final, 0);
    assert names[0..] == names && keys[0..] == keys && Quoted(final)[0..] == Quoted(final);
    BlockIsJoin(names, keys);
    BlockIsJoin(names, Quoted(final));
    RenderFills(Pieces(names, keys), keys, values);
  }

  /** A block of quoted placeholders assigns, once rendered, to each name what the loop makes of its value. */
  lemma RenderedBlockAssigns(names: seq<string>, keys: seq<string>, values: seq<string>)
    requires Placeholders(keys) && |names| == |keys| == |values|
    requires forall i :: 0 <= i < |names| ==> PlainName(names[i]) && '\0' !in values[i]
    ensures ReadBlock(Render(Block(names, keys), keys, values, |keys|)) == Some(Pairs(names, Final(keys, values)))
  {
    RenderBlock(names, keys, values);
    forall i | 0 <= i < |keys| ensures '\0' !in Final(keys, values)[i] {
      ExpandBringsNoNul(values[i], keys, values, i + 1, |keys|);
    }
    BlockReadsBack(names, Final(keys, values));
  }

  lemma TheTenNamesArePlain(i: nat)
    requires i < |NAMES|
    ensures PlainName(NAMES[i])
  {
    if i < 5 {
      FirstNamesArePlain(i);
    } else {
      LastNamesArePlain(i);
    }
  }

  lemma FirstNamesArePlain(i: nat)
    requires i < 5
    ensures PlainName(NAMES[i])
  {
  }

  lemma LastNamesArePlain(i: nat)
    requires 5 <= i < |NAMES|
    ensures PlainName(NAMES[i])
  {
  }

  /**
   * End to end, for all values without NUL: the rendered script assigns to each of the ten variables its value
   * with the placeholders after its own replaced in it, whatever quotes, newlines or dollar signs it holds.
   */
  lemma BootstrapAssigns(values: seq<string>)
    requires |values| == |KEYS| && forall i :: 0 <= i < |values| ==> '\0' !in values[i]
    ensures ReadBlock(Render(Block(NAMES, KEYS), KEYS, values, |KEYS|)) == Some(Pairs(NAMES, Final(KEYS, values)))
  {
    TheTenArePlaceholders();
    forall i | 0 <= i < |NAMES| ensures PlainName(NAMES[i]) {
      TheTenNamesArePlain(i);
    }
    RenderedBlockAssigns(NAMES, KEYS, values);
  }

  /** So when no value contains a placeholder after its own, each variable gets exactly its value. */
  lemma BootstrapAssignsValues(values: seq<string>)
    requires |values| == |KEYS| && NoLater(KEYS, values) && forall i :: 0 <= i < |values| ==> '\0' !in values[i]
    ensures ReadBlock(Render(Block(NAMES, KEYS), KEYS, values, |KEYS|)) == Some(Pairs(NAMES, values))
  {
    BootstrapAssigns(values);
    NoLaterIsFinal(KEYS, values);
  }

  lemma PairsDiffer(names: seq<string>, values: seq<string>, others: seq<string>)
    requires |names| == |values| == |others| && Pairs(names, values) == Pairs(names, others)
    ensures values == others
  {
    forall i | 0 <= i < |values| ensures values[i] == others[i] {
      assert Pairs(names, values)[i] == Pairs(names, others)[i];
    }
  }

  /** And in general exactly when replacing the placeholders after its own changes no value. */
  lemma BootstrapAssignsValuesIff(values: seq<string>)
    requires |values| == |KEYS| && forall i :: 0 <= i < |values| ==> '\0' !in values[i]
    ensures ReadBlock(Render(Block(NAMES, KEYS), KEYS, values, |KEYS|)) == Some(Pairs(NAMES, values)) <==>
            Final(KEYS, values) == values
  {
    BootstrapAssigns(values);
    if Pairs(NAMES, Final(KEYS, values)) == Pairs(NAMES, values) {
      PairsDiffer(NAMES, Final(KEYS, values), values);
    }
  }

  lemma {:induction false} ExpandLater(keys: seq<string>, values: seq<string>, j: nat, from: nat, n: nat)
    requires Placeholders(keys) && |keys| == |values| && from <= j < n <= |keys|
    ensures Expand(keys[j], keys, values, from, n) == Expand(values[j], keys, values, j + 1, n)
  {
    if n == j + 1 {
      forall i | from <= i < j ensures !Occurs(keys[i], keys[j]) {
        NotInside(keys[i], keys[j]);
      }
      ExpandNothing(keys[j], keys, values, from, j);
      ReplaceWhole(keys[j], values[j]);
    } else {
      ExpandLater(keys, values, j, from, n - 1);
    }
  }

  ghost predicate NoLaterFrom(keys: seq<string>, values: seq<string>, j: nat)
    requires j < |keys| == |values|
  {
    forall k :: j < k < |keys| ==> !Occurs(keys[k], values[j])
  }

  lemma LaterIsFinal(keys: seq<string>, values: seq<string>, i: nat, j: nat)
    requires Placeholders(keys) && |keys| == |values| && i < j < |keys| && values[i] == keys[j]
    ensures Final(keys, values)[i] == Final(keys, values)[j]
    ensures NoLaterFrom(keys, values, j) ==> Final(keys, values)[i] == values[j]
  {
    ExpandLater(keys, values, j, i + 1, |keys|);
    if NoLaterFrom(keys, values, j) {
      ExpandNothing(values[j], keys, values, j + 1, |keys|);
    }
  }

  /**
   * A value that is the placeholder of a later variable: the script assigns to both variables the same,
   * the later one's value if that contains no placeholder after its own.
   */
  lemma LaterPlaceholderIsReplaced(values: seq<string>, i: nat, j: nat, read: seq<(string, string)>)
    requires |values| == |KEYS| && forall k :: 0 <= k < |values| ==> '\0' !in values[k]
    requires i < j < |KEYS| && values[i] == KEYS[j]
    requires ReadBlock(Render(Block(NAMES, KEYS), KEYS, values, |KEYS|)) == Some(read)
    ensures |read| == |KEYS| && read[i].1 == read[j].1
    ensures NoLaterFrom(KEYS, values, j) ==> read[i].1 == values[j]
  {
    TheTenArePlaceholders();
    BootstrapAssigns(values);
    LaterIsFinal(KEYS, values, i, j);
    PairAt(NAMES, Final(KEYS, values), i);
    PairAt(NAMES, Final(KEYS, values), j);
  }

  lemma PairAt(names: seq<string>, values: seq<string>, i: nat)
    requires |names| == |values| && i < |names|
    ensures |Pairs(names, values)| == |names| && Pairs(names, values)[i].1 == values[i]
  {
  }
}
