/** Venue (stadium) codes: the fixed code-to-name table and the discovery
    of the venues holding races on a date from the links of the date's
    index page (`get_active_stadiums`, identical in both collectors). */
module Venues {
  import opened PyText

  /** `STADIUM_NAMES`: the 24 venues by two-digit code. */
  const StadiumNames: map<string, string> := map[
    "01" := "桐生", "02" := "戸田", "03" := "江戸川", "04" := "平和島",
    "05" := "多摩川", "06" := "浜名湖", "07" := "蒲郡", "08" := "常滑",
    "09" := "津", "10" := "三国", "11" := "びわこ", "12" := "住之江",
    "13" := "尼崎", "14" := "鳴門", "15" := "丸亀", "16" := "児島",
    "17" := "宮島", "18" := "徳山", "19" := "下関", "20" := "若松",
    "21" := "芦屋", "22" := "福岡", "23" := "唐津", "24" := "大村"
  ]

  /** The name used for a code missing from the table. */
  const UnknownName: string := "不明"

  /** `STADIUM_NAMES.get(code, '不明')`. */
  function StadiumName(code: string): string
  {
    if code in StadiumNames then StadiumNames[code] else UnknownName
  }

  /** The two-digit text of `k` (1 <= k <= 24), as the table's keys are written. */
  function TwoDigitCode(k: nat): (code: string)
    requires k < 100
    ensures |code| == 2
  {
    [('0' as int + k / 10) as char, ('0' as int + k % 10) as char]
  }

  /** The table knows exactly the codes 01..24, and no venue is called
      `不明`, so the fallback name singles out the unknown codes. */
  lemma StadiumTable(code: string)
    ensures code in StadiumNames <==> exists k :: 1 <= k <= 24 && code == TwoDigitCode(k)
    ensures StadiumName(code) == UnknownName <==> code !in StadiumNames
  {
    if code in StadiumNames {
      assert code == TwoDigitCode(if code[0] == '0' then code[1] as int - '0' as int else 10 * (code[0] as int - '0' as int) + code[1] as int - '0' as int);
    }
    if exists k :: 1 <= k <= 24 && code == TwoDigitCode(k) {
      var k :| 1 <= k <= 24 && code == TwoDigitCode(k);
      assert 1 <= k <= 24;
    }
    assert UnknownName !in StadiumNames.Values;
  }

  /** How the index page fetch ended: `requests` raised, or a response
      with its status code and the `href` of every `<a>` element, in
      document order (HTML parsing itself is outside the model). */
  datatype IndexFetch = IndexRaised | IndexResponse(status: int, hrefs: seq<string>)

  /** `raise_for_status()` raises for the client and server error statuses. */
  predicate IsErrorStatus(status: int)
  {
    400 <= status < 600
  }

  /** A parameter starting with `jcd=` splits on `=` into `jcd` and the
      pieces of what follows `jcd=`. */
  lemma SplitJcd(p: string)
    requires StartsWith(p, "jcd=")
    ensures Split(p, '=') == ["jcd"] + Split(p[4..], '=')
  {
    var rest := Split(p[4..], '=');
    JoinSplit(p[4..], '=');
    assert p == "jcd" + ['='] + p[4..];
    assert Join(["jcd"] + rest, '=') == p by {
      assert (["jcd"] + rest)[1..] == rest;
    }
    SplitJoin(["jcd"] + rest, '=');
  }

  /** `p.split('=')[1]` for a parameter starting with `jcd=`: the text
      after `jcd=` up to the next `=`, if any. */
  function JcdValue(p: string): (v: string)
    requires StartsWith(p, "jcd=")
    ensures v == Split(p[4..], '=')[0]
  {
    SplitJcd(p);
    Split(p, '=')[1]
  }

  /** The codes of the `jcd=` parameters among `params`, in order. */
  function ParamCodes(params: seq<string>): seq<string>
  {
    if params == [] then []
    else
      var p := params[|params| - 1];
      ParamCodes(params[..|params| - 1]) + (if StartsWith(p, "jcd=") then [JcdValue(p)] else [])
  }

  /** The codes one link contributes: nothing unless it mentions `jcd=`
      and has a query part; otherwise the codes of the `&`-separated
      parameters between its first and second `?`. */
  function HrefCodes(href: string): seq<string>
  {
    if !Contains(href, "jcd=") then []
    else
      var parts := Split(href, '?');
      if |parts| > 1 then ParamCodes(Split(parts[1], '&')) else []
  }

  /** The codes contributed by all links, in link order (the source
      gathers them into a set; only membership matters here). */
  function LinkCodes(hrefs: seq<string>): seq<string>
  {
    if hrefs == [] then []
    else LinkCodes(hrefs[..|hrefs| - 1]) + HrefCodes(hrefs[|hrefs| - 1])
  }

  /** The codes a fetch of the index page reveals: none when the fetch
      raised or the status is an error. */
  function Discovered(index: IndexFetch): seq<string>
  {
    match index
    case IndexRaised => []
    case IndexResponse(status, hrefs) => if IsErrorStatus(status) then [] else LinkCodes(hrefs)
  }

  /** A code is among the parameters' codes iff some parameter starting
      with `jcd=` carries it. */
  lemma {:induction false} ParamCodesMembers(params: seq<string>, c: string)
    ensures c in ParamCodes(params) <==>
      exists k :: 0 <= k < |params| && StartsWith(params[k], "jcd=") && JcdValue(params[k]) == c
  {
    if params != [] {
      var init := params[..|params| - 1];
      ParamCodesMembers(init, c);
      if exists k :: 0 <= k < |init| && StartsWith(init[k], "jcd=") && JcdValue(init[k]) == c {
        var k :| 0 <= k < |init| && StartsWith(init[k], "jcd=") && JcdValue(init[k]) == c;
        assert params[k] == init[k];
      }
      if exists k :: 0 <= k < |params| && StartsWith(params[k], "jcd=") && JcdValue(params[k]) == c {
        var k :| 0 <= k < |params| && StartsWith(params[k], "jcd=") && JcdValue(params[k]) == c;
        if k < |init| {
          assert init[k] == params[k];
        }
      }
    }
  }

  /** A code is discovered iff some link contributes it. */
  lemma LinkCodesMembers(hrefs: seq<string>, c: string)
    ensures c in LinkCodes(hrefs) <==> exists i :: 0 <= i < |hrefs| && c in HrefCodes(hrefs[i])
  {
    if c in LinkCodes(hrefs) {
      var i := LinkCodesWitness(hrefs, c);
    }
    if exists i :: 0 <= i < |hrefs| && c in HrefCodes(hrefs[i]) {
      var i :| 0 <= i < |hrefs| && c in HrefCodes(hrefs[i]);
      LinkCodesFrom(hrefs, i, c);
    }
  }

  /** A discovered code comes from some link. */
  lemma {:induction false} LinkCodesWitness(hrefs: seq<string>, c: string) returns (i: nat)
    requires c in LinkCodes(hrefs)
    ensures i < |hrefs| && c in HrefCodes(hrefs[i])
  {
    var init := hrefs[..|hrefs| - 1];
    if c in LinkCodes(init) {
      i := LinkCodesWitness(init, c);
      assert hrefs[i] == init[i];
    } else {
      i := |hrefs| - 1;
    }
  }

  /** Every code of every link is discovered. */
  lemma {:induction false} LinkCodesFrom(hrefs: seq<string>, i: nat, c: string)
    requires i < |hrefs| && c in HrefCodes(hrefs[i])
    ensures c in LinkCodes(hrefs)
  {
    var init := hrefs[..|hrefs| - 1];
    if i < |init| {
      assert init[i] == hrefs[i];
      LinkCodesFrom(init, i, c);
    }
  }

  /** A link without a `?` contributes nothing. */
  lemma NoQueryNoCodes(href: string)
    requires '?' !in href
    ensures HrefCodes(href) == []
  {
  }

  /** `sorted(...)` order without repetitions. */
  predicate StrictlySorted(codes: seq<string>)
  {
    forall i, j :: 0 <= i < j < |codes| ==> LexLess(codes[i], codes[j])
  }

  /** The head of a strictly sorted listing is below every other entry. */
  lemma SortedHead(a: seq<string>)
    requires StrictlySorted(a) && a != []
    ensures forall c :: c in a && c != a[0] ==> LexLess(a[0], c)
  {
  }

  /** Two listings with the same elements have the same head: each head
      would otherwise be below the other. */
  lemma SameHead(a: seq<string>, b: seq<string>)
    requires StrictlySorted(a) && StrictlySorted(b) && a != [] && b != []
    requires forall c :: c in a <==> c in b
    ensures a[0] == b[0]
  {
    SortedHead(a);
    SortedHead(b);
    assert b[0] in a && a[0] in b;
    if a[0] != b[0] {
      LexTransitive(a[0], b[0], a[0]);
      LexIrreflexive(a[0]);
    }
  }

  /** Listings with the same elements are empty together. */
  lemma SameEmptiness(a: seq<string>, b: seq<string>)
    requires forall c :: c in a <==> c in b
    ensures a == [] <==> b == []
  {
    if a != [] {
      assert a[0] in b;
    }
    if b != [] {
      assert b[0] in a;
    }
  }

  /** A set of strings has only one strictly sorted listing. */
  lemma {:induction false} SortedUnique(a: seq<string>, b: seq<string>)
    requires StrictlySorted(a) && StrictlySorted(b)
    requires forall c :: c in a <==> c in b
    ensures a == b
    decreases |a|
  {
    SameEmptiness(a, b);
    if a != [] {
      SameHead(a, b);
      SortedHead(a);
      SortedHead(b);
      LexIrreflexive(a[0]);
      assert a == [a[0]] + a[1..] && b == [b[0]] + b[1..];
      forall c ensures c in a[1..] <==> c in b[1..] {
        if c in a[1..] {
          var k :| 0 <= k < |a[1..]| && a[1..][k] == c;
          assert LexLess(a[0], a[k + 1]) && a[k + 1] == c && c in b;
          var m :| 0 <= m < |b| && b[m] == c;
          assert m != 0 && b[1..][m - 1] == c;
        }
        if c in b[1..] {
          var k :| 0 <= k < |b[1..]| && b[1..][k] == c;
          assert LexLess(b[0], b[k + 1]) && b[k + 1] == c && c in a;
          var m :| 0 <= m < |a| && a[m] == c;
          assert m != 0 && a[1..][m - 1] == c;
        }
      }
      SortedUnique(a[1..], b[1..]);
    }
  }

  /** The least string of a non-empty set. */
  method Least(s: set<string>) returns (m: string)
    requires s != {}
    ensures m in s
    ensures forall c :: c in s && c != m ==> LexLess(m, c)
  {
    m :| m in s;
    var todo := s - {m};
    while todo != {}
      invariant todo <= s && m in s && m !in todo
      invariant forall c :: c in s && c !in todo && c != m ==> LexLess(m, c)
      decreases todo
    {
      var c :| c in todo;
      LexTotal(c, m);
      if LexLess(c, m) {
        forall d | d in s && d !in todo && d != c ensures LexLess(c, d) {
          if d != m {
            LexTransitive(c, m, d);
          }
        }
        m := c;
      }
      todo := todo - {c};
    }
  }

  /** `sorted(list(s))`: the codes in ascending order, each once. */
  method SortCodes(s: set<string>) returns (codes: seq<string>)
    ensures StrictlySorted(codes)
    ensures forall c :: c in codes <==> c in s
  {
    codes := [];
    var rest := s;
    while rest != {}
      invariant rest <= s
      invariant forall c :: c in s <==> c in rest || c in codes
      invariant forall c :: c in codes ==> c !in rest
      invariant StrictlySorted(codes)
      invariant forall i, c :: 0 <= i < |codes| && c in rest ==> LexLess(codes[i], c)
      decreases rest
    {
      var m := Least(rest);
      forall i, c | 0 <= i < |codes| && c in rest - {m} ensures LexLess(codes[i], c) {
        LexTransitive(codes[i], m, c);
      }
      codes := codes + [m];
      rest := rest - {m};
    }
  }

  /** The body of the link loop: add the codes of one link to the set
      gathered so far. */
  method AddLinkCodes(href: string, stadiums: set<string>) returns (stadiums': set<string>)
    ensures forall c :: c in stadiums' <==> c in stadiums || c in HrefCodes(href)
  {
    stadiums' := stadiums;
    if Contains(href, "jcd=") {
      var parts := Split(href, '?');
      if |parts| > 1 {
        var params := Split(parts[1], '&');
        for j := 0 to |params|
          invariant forall c :: c in stadiums' <==> c in stadiums || c in ParamCodes(params[..j])
        {
          var p := params[j];
          assert params[..j + 1][..j] == params[..j];
          if StartsWith(p, "jcd=") {
            stadiums' := stadiums' + {JcdValue(p)};
          }
        }
        assert params[..|params|] == params;
      }
    }
  }

  /** `get_active_stadiums`: the distinct codes of the index page's links,
      ascending; no codes when the fetch raised or returned an error status. */
  method ActiveStadiums(index: IndexFetch) returns (codes: seq<string>)
    ensures StrictlySorted(codes)
    ensures forall c :: c in codes <==> c in Discovered(index)
  {
    if index.IndexRaised? || IsErrorStatus(index.status) {
      return [];
    }
    var hrefs := index.hrefs;
    var stadiums: set<string> := {};
    for i := 0 to |hrefs|
      invariant forall c :: c in stadiums <==> c in LinkCodes(hrefs[..i])
    {
      assert hrefs[..i + 1][..i] == hrefs[..i];
      stadiums := AddLinkCodes(hrefs[i], stadiums);
    }
    assert hrefs[..|hrefs|] == hrefs;
    codes := SortCodes(stadiums);
  }
}
