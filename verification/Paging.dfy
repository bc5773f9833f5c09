// Page sizes, skip tokens and next links.
module Paging {
  import opened Arithmetic
  import opened Wrappers

  // ----- decimal numbers -----

  function Digit(d: nat): char
    requires d < 10
  {
    '0' + d as char
  }

  /** `strconv.Itoa` on a non-negative number. */
  function Itoa(n: nat): (s: string) {
    if n < 10 then [Digit(n)] else Itoa(n / 10) + [Digit(n % 10)]
  }

  predicate IsDigit(c: char) {
    '0' <= c <= '9'
  }

  function DigitValue(c: char): (d: nat)
    requires IsDigit(c)
  {
    (c - '0') as nat
  }

  function DigitsValue(s: string): (r: Option<int>)
    ensures r.Some? ==> r.value >= 0
  {
    if s == [] then Some(0)
    else
      var last := s[|s| - 1];
      match DigitsValue(s[..|s| - 1])
      case None => None
      case Some(v) => if IsDigit(last) then Some(v * 10 + DigitValue(last)) else None
  }

  /** `strconv.Atoi`: an optional sign, at least one digit, and a value that fits an int64. */
  function Atoi(s: string): Option<int> {
    if s == [] then None
    else
      var negative := s[0] == '-';
      var digits := if s[0] == '-' || s[0] == '+' then s[1..] else s;
      if digits == [] then None
      else match DigitsValue(digits)
        case None => None
        case Some(v) =>
          var n := if negative then -v else v;
          if -MAX_INT - 1 <= n <= MAX_INT then Some(n) else None
  }

  lemma {:induction false} ItoaDigits(n: nat)
    ensures Itoa(n) != [] && IsDigit(Itoa(n)[0]) && DigitsValue(Itoa(n)) == Some(n)
  {
    if n < 10 {
      assert Itoa(n)[..0] == [];
    } else {
      ItoaDigits(n / 10);
      var s := Itoa(n);
      assert s[..|s| - 1] == Itoa(n / 10);
    }
  }

  /** The ten digits, in their order. */
  lemma DigitsInOrder(d: nat)
    requires d < 10
    ensures Digit(d) == "0123456789"[d] && IsDigit(Digit(d)) && DigitValue(Digit(d)) == d
  {
  }

  lemma IsDigitIff(c: char)
    ensures IsDigit(c) <==> exists d: nat :: d < 10 && c == "0123456789"[d]
  {
    if IsDigit(c) {
      DigitsInOrder((c - '0') as nat);
    }
  }

  /** A text denotes a number exactly if all of it is digits. */
  lemma {:induction false} DigitsValueIff(s: string)
    ensures DigitsValue(s).Some? <==> forall i :: 0 <= i < |s| ==> IsDigit(s[i])
  {
    if s != "" {
      var init := s[..|s| - 1];
      DigitsValueIff(init);
      assert forall i :: 0 <= i < |init| ==> s[i] == init[i];
    }
  }

  function Pow10(n: nat): nat {
    if n == 0 then 1 else 10 * Pow10(n - 1)
  }

  /** The first digit is the most significant one. */
  lemma {:induction false} FirstDigitWeighsMost(c: char, s: string)
    requires IsDigit(c) && DigitsValue(s).Some?
    ensures DigitsValue([c] + s) == Some(DigitValue(c) * Pow10(|s|) + DigitsValue(s).value)
  {
    if s == "" {
      assert [c][..0] == [] && [c] + s == [c];
    } else {
      var init := s[..|s| - 1];
      var whole := [c] + s;
      assert whole[..|whole| - 1] == [c] + init;
      FirstDigitWeighsMost(c, init);
      assert DigitValue(c) * (10 * Pow10(|init|)) == DigitValue(c) * Pow10(|init|) * 10;
    }
  }

  /** What `strconv.Atoi` reads: an optional sign, then digits, within 64 bits. */
  lemma AtoiReads(s: string)
    requires s != "" && DigitsValue(s).Some?
    ensures Atoi(s) == if DigitsValue(s).value <= 0x7FFF_FFFF_FFFF_FFFF then DigitsValue(s) else None
    ensures Atoi("+" + s) == Atoi(s)
    ensures Atoi("-" + s) == if DigitsValue(s).value <= 0x8000_0000_0000_0000 then Some(-DigitsValue(s).value) else None
    ensures Atoi("") == Atoi("+") == Atoi("-") == None
  {
    DigitsValueIff(s);
    assert ("+" + s)[1..] == s && ("-" + s)[1..] == s;
  }

  lemma AtoiItoa(n: nat)
    requires n <= MAX_INT
    ensures Itoa(n) != "" && Atoi(Itoa(n)) == Some(n)
  {
    ItoaDigits(n);
  }

  // ----- a page of a list -----

  datatype PageError = InvalidSkipToken | InvalidMaxResults

  function PageSize(maxResults: int): (size: nat)
    ensures 1 <= size <= 100
  {
    if maxResults <= 0 then 25 else if maxResults > 100 then 100 else maxResults
  }

  /** `paginateNames`: the page that starts at the token, and the token of the next page. */
  function Paginate<T>(items: seq<T>, skipToken: string, maxResults: int): Result<(seq<T>, Option<string>), PageError> {
    var start := if skipToken == "" then Some(0) else Atoi(skipToken);
    if start == None || start.value < 0 then Err(InvalidSkipToken)
    else if start.value >= |items| then Ok(([], None))
    else
      var end := start.value + PageSize(maxResults);
      if end >= |items| then Ok((items[start.value..], None))
      else Ok((items[start.value..end], Some(Itoa(end))))
  }

  // ----- the query of a request -----

  /**
   * The page a token asks for: it starts at the token's number, or at 0 without one, and has as many
   * items as are asked for, 25 by default and 100 at most, or as are left; the next token is there
   * exactly if some are left after it, and is the number of the first of them.
   */
  lemma PageLaw<T>(items: seq<T>, skipToken: string, maxResults: int)
    requires |items| <= MAX_INT
    ensures var r := Paginate(items, skipToken, maxResults);
            var size := if maxResults < 1 then 25 else if maxResults <= 100 then maxResults else 100;
            && (r.Err? <==> skipToken != "" && (Atoi(skipToken) == None || Atoi(skipToken).value < 0))
            && (r.Err? ==> r.error == InvalidSkipToken)
            && (r.Ok? ==>
                  var start := if skipToken == "" then 0 else Atoi(skipToken).value;
                  var end := if start + size < |items| then start + size else |items|;
                  && r.value.0 == (if start < |items| then items[start..end] else [])
                  && (r.value.1.Some? <==> start + size < |items|)
                  && (r.value.1.Some? ==> Atoi(r.value.1.value) == Some(start + size)))
  {
    var start := if skipToken == "" then Some(0) else Atoi(skipToken);
    if start.Some? && start.value >= 0 && start.value + PageSize(maxResults) < |items| {
      AtoiItoa(start.value + PageSize(maxResults));
    }
  }

  /** `url.Values`. */
  type Query = map<string, seq<string>>

  function Get(q: Query, key: string): string {
    if key in q && q[key] != [] then q[key][0] else ""
  }

  function Set(q: Query, key: string, value: string): Query {
    q[key := [value]]
  }

  /** `cloneValues`: a fresh map with the same lists. */
  method CloneValues(values: Query) returns (out: Query)
    ensures out == values
  {
    out := map[];
    var rest := values.Keys;
    while rest != {}
      invariant rest <= values.Keys && out.Keys == values.Keys - rest
      invariant forall k :: k in out ==> out[k] == values[k]
      decreases |rest|
    {
      var key :| key in rest;
      out := out[key := values[key]];
      rest := rest - {key};
    }
  }

  function ParsePagination(q: Query): Result<(nat, string), PageError> {
    var raw := if Get(q, "$maxresults") == "" then Get(q, "maxresults") else Get(q, "$maxresults");
    var skip := if Get(q, "$skiptoken") == "" then Get(q, "skiptoken") else Get(q, "$skiptoken");
    if raw == "" then Ok((25, skip))
    else match Atoi(raw)
      case None => Err(InvalidMaxResults)
      case Some(n) =>
        if n <= 0 then Err(InvalidMaxResults)
        else Ok((if n > 100 then 100 else n, skip))
  }

  /** The query of `buildNextLink`, URL encoding apart. */
  function NextQuery(q: Query, token: string): Query {
    var q' := Set(q, "$skiptoken", token);
    if Get(q', "api-version") == "" then Set(q', "api-version", "7.4") else q'
  }

  /**
   * The page size and token of a request: `$maxresults` and `$skiptoken`, or without them `maxresults`
   * and `skiptoken`; a size must be a positive number, is cut to 100, and is 25 if none is given.
   */
  lemma ParseLaw(q: Query)
    ensures var raw := if Get(q, "$maxresults") != "" then Get(q, "$maxresults") else Get(q, "maxresults");
            var skip := if Get(q, "$skiptoken") != "" then Get(q, "$skiptoken") else Get(q, "skiptoken");
            var r := ParsePagination(q);
            && (r.Err? <==> raw != "" && (Atoi(raw) == None || Atoi(raw).value < 1))
            && (r.Err? ==> r.error == InvalidMaxResults)
            && (r.Ok? ==> r.value.1 == skip)
            && (r.Ok? ==> (r.value.0 == 25 <==> raw == "" || Atoi(raw) == Some(25)))
            && (r.Ok? && raw != "" && Atoi(raw).value <= 100 ==> r.value.0 == Atoi(raw).value)
            && (r.Ok? && raw != "" && Atoi(raw).value > 100 ==> r.value.0 == 100)
  {
  }

  /** `url.Values.Get`: the first value of the key, or none. */
  lemma FirstValue(q: Query, key: string)
    ensures Get(q, key) != "" <==> key in q && q[key] != [] && q[key][0] != ""
    ensures key in q && q[key] != [] ==> Get(q, key) == q[key][0]
  {
  }

  /** The next link's query has the new token, an API version if there was none, and the rest as it was. */
  lemma NextQueryLaw(q: Query, token: string, key: string)
    requires token != ""
    ensures var q' := NextQuery(q, token);
            && Get(q', "$skiptoken") == token
            && Get(q', "api-version") == (if Get(q, "api-version") == "" then "7.4" else Get(q, "api-version"))
            && (key != "$skiptoken" && key != "api-version" ==> (key in q' <==> key in q) && (key in q ==> q'[key] == q[key]))
  {
    assert "$skiptoken" != "api-version" by { assert "$skiptoken"[0] != "api-version"[0]; }
  }

  /** One list request: the page it answers with, and the query of the link it offers. */
  function Request<T>(items: seq<T>, q: Query): Result<(seq<T>, Option<Query>), PageError> {
    match ParsePagination(q)
    case Err(e) => Err(e)
    case Ok((size, skip)) =>
      match Paginate(items, skip, size)
      case Err(e) => Err(e)
      case Ok((page, None)) => Ok((page, None))
      case Ok((page, Some(token))) => Ok((page, Some(NextQuery(q, token))))
  }

  lemma NextQueryParses(q: Query, size: nat, skip: string, token: string)
    requires ParsePagination(q) == Ok((size, skip)) && token != ""
    ensures ParsePagination(NextQuery(q, token)) == Ok((size, token))
  {
    var q' := NextQuery(q, token);
    assert "$maxresults" != "$skiptoken" && "$maxresults" != "api-version" && "$skiptoken" != "api-version" by {
      assert "$maxresults"[1] != "$skiptoken"[1];
    }
    assert "maxresults" != "$skiptoken" && "maxresults" != "api-version";
    assert Get(q', "$maxresults") == Get(q, "$maxresults");
    assert Get(q', "maxresults") == Get(q, "maxresults");
    assert Get(q', "$skiptoken") == token;
  }

  // ----- following the links -----

  /** `pages` is what a client collects by following next links from `q` until there is none. */
  ghost predicate Walk<T>(items: seq<T>, q: Query, pages: seq<seq<T>>)
    decreases |pages|
  {
    && pages != []
    && Request(items, q).Ok?
    && var (page, next) := Request(items, q).value;
       page == pages[0] && if next == None then |pages| == 1 else Walk(items, next.value, pages[1..])
  }

  function Concat<T>(pages: seq<seq<T>>): seq<T> {
    if pages == [] then [] else pages[0] + Concat(pages[1..])
  }

  /** What is left of the list after `start` items, cut into pages of `size`. */
  function Chunks<T>(items: seq<T>, start: nat, size: nat): (pages: seq<seq<T>>)
    requires size > 0 && start <= |items|
    decreases |items| - start
  {
    if start + size >= |items| then [items[start..]]
    else [items[start..start + size]] + Chunks(items, start + size, size)
  }

  lemma {:induction false} ChunksConcat<T>(items: seq<T>, start: nat, size: nat)
    requires size > 0 && start <= |items|
    ensures Concat(Chunks(items, start, size)) == items[start..]
    decreases |items| - start
  {
    var pages := Chunks(items, start, size);
    if start + size >= |items| {
      assert Concat(pages[1..]) == [];
      assert pages[0] + [] == items[start..];
    } else {
      ChunksConcat(items, start + size, size);
      assert pages[1..] == Chunks(items, start + size, size);
      assert items[start..start + size] + items[start + size..] == items[start..];
    }
  }

  lemma {:induction false} ChunksShape<T>(items: seq<T>, start: nat, size: nat)
    requires size > 0 && start < |items|
    ensures |Chunks(items, start, size)| == (|items| - start + size - 1) / size
    ensures forall i :: 0 <= i < |Chunks(items, start, size)| ==> 1 <= |Chunks(items, start, size)[i]| <= size
    decreases |items| - start
  {
    var left := |items| - start - 1;
    if start + size >= |items| {
      RemainderUnique(left, size, 0, left);
    } else {
      ChunksShape(items, start + size, size);
      DivideOneMore(left - size, size);
    }
    DivideOneMore(left, size);
  }

  /** Walking from a token reads the chunks from that position. */
  lemma {:induction false} WalkChunks<T>(items: seq<T>, q: Query, start: nat, size: nat, token: string)
    requires |items| <= MAX_INT && start <= |items|
    requires ParsePagination(q) == Ok((size, token)) && 1 <= size <= 100
    requires (token == "" && start == 0) || (token != "" && Atoi(token) == Some(start))
    ensures Walk(items, q, Chunks(items, start, size))
    decreases |items| - start
  {
    if start + size < |items| {
      var end := start + size;
      AtoiItoa(end);
      NextQueryParses(q, size, token, Itoa(end));
      WalkChunks(items, NextQuery(q, Itoa(end)), end, size, Itoa(end));
      var pages := Chunks(items, start, size);
      assert pages[1..] == Chunks(items, end, size);
    }
  }

  /** A walk is determined by its first request. */
  lemma {:induction false} WalkUnique<T>(items: seq<T>, q: Query, a: seq<seq<T>>, b: seq<seq<T>>)
    requires Walk(items, q, a) && Walk(items, q, b)
    ensures a == b
    decreases |a|
  {
    var (page, next) := Request(items, q).value;
    if next.Some? {
      WalkUnique(items, next.value, a[1..], b[1..]);
    }
    assert a == [a[0]] + a[1..] && b == [b[0]] + b[1..];
  }

  lemma ParsedSize(q: Query)
    ensures ParsePagination(q).Ok? ==> 1 <= ParsePagination(q).value.0 <= 100
  {
  }

  /** Every item once and in order, in max(1, ceil(n / size)) pages of at most `size`, none empty unless the list is. */
  ghost predicate Enumerates<T>(items: seq<T>, size: nat, pages: seq<seq<T>>)
    requires size > 0
  {
    && Concat(pages) == items
    && |pages| == (if items == [] then 1 else (|items| + size - 1) / size)
    && forall i :: 0 <= i < |pages| ==> |pages[i]| <= size && (items != [] ==> pages[i] != [])
  }

  lemma ChunksEnumerate<T>(items: seq<T>, size: nat)
    requires size > 0
    ensures Enumerates(items, size, Chunks(items, 0, size))
  {
    ChunksConcat(items, 0, size);
    if items != [] {
      ChunksShape(items, 0, size);
    }
  }

  /** Following next links from any valid first request without a token ends, and enumerates the list. */
  lemma FollowingLinksEnumerates<T>(items: seq<T>, q: Query)
    requires |items| <= MAX_INT
    requires ParsePagination(q).Ok? && ParsePagination(q).value.1 == ""
    ensures exists pages :: Walk(items, q, pages)
    ensures ParsePagination(q).value.0 > 0
    ensures forall pages :: Walk(items, q, pages) ==> Enumerates(items, ParsePagination(q).value.0, pages)
  {
    ParsedSize(q);
    var size := ParsePagination(q).value.0;
    var chunks := Chunks(items, 0, size);
    WalkChunks(items, q, 0, size, "");
    ChunksEnumerate(items, size);
    forall pages | Walk(items, q, pages)
      ensures pages == chunks
    {
      WalkUnique(items, q, pages, chunks);
    }
  }
}
