/** Camera parameters: a vector of key/value pairs sorted by key, its flattened text, and
    the sizes and integers stored in it. Strings are C strings without their terminator. */
module CameraParams {
  import opened Decimal

  type Params = seq<(string, string)>

  // ------------------------------------------------------------------------- key order

  /** The order of strcmp. */
  predicate Less(a: string, b: string) {
    if b == [] then false
    else if a == [] then true
    else a[0] < b[0] || (a[0] == b[0] && Less(a[1..], b[1..]))
  }

  lemma {:induction false} LessIrreflexive(a: string)
    ensures !Less(a, a)
  {
    if a != [] { LessIrreflexive(a[1..]); }
  }

  lemma {:induction false} LessTotal(a: string, b: string)
    ensures a == b || Less(a, b) || Less(b, a)
  {
    if a != [] && b != [] && a[0] == b[0] {
      LessTotal(a[1..], b[1..]);
      assert a == [a[0]] + a[1..] && b == [b[0]] + b[1..];
    }
  }

  lemma {:induction false} LessTransitive(a: string, b: string, c: string)
    requires Less(a, b) && Less(b, c)
    ensures Less(a, c)
  {
    if a != [] && b[0] == a[0] && c[0] == a[0] {
      LessTransitive(a[1..], b[1..], c[1..]);
    }
  }

  predicate Sorted(m: Params) { forall i, j | 0 <= i < j < |m| :: Less(m[i].0, m[j].0) }

  // ------------------------------------------------------------------ the keyed vector

  /** Insert in key order, replacing the value of a present key. */
  function Put(m: Params, k: string, v: string): Params {
    if m == [] then [(k, v)]
    else if m[0].0 == k then [(k, v)] + m[1..]
    else if Less(k, m[0].0) then [(k, v)] + m
    else [m[0]] + Put(m[1..], k, v)
  }

  /** The value of a key, empty if it is absent. */
  function Lookup(m: Params, k: string): string {
    if m == [] then "" else if m[0].0 == k then m[0].1 else Lookup(m[1..], k)
  }

  function Drop(m: Params, k: string): Params {
    if m == [] then [] else if m[0].0 == k then m[1..] else [m[0]] + Drop(m[1..], k)
  }

  function Forced(k: string, v: string): string {
    if k == "face-detection-values" || k == "face-detection" then "off" else v
  }

  // -------------------------------------------------------------------- flat text form

  function IndexOf(s: string, c: char): (r: nat)
    ensures r <= |s| && (r < |s| ==> s[r] == c) && forall i | 0 <= i < r :: s[i] != c
  {
    if s == [] || s[0] == c then 0 else 1 + IndexOf(s[1..], c)
  }

  function Item(p: (string, string)): string { p.0 + "=" + p.1 }

  function Flatten(m: Params): string {
    if m == [] then "" else if |m| == 1 then Item(m[0]) else Item(m[0]) + ";" + Flatten(m[1..])
  }

  /** The first key and value of a text, and what follows the value's semicolon. */
  datatype Head = NoItem | LastItem(k: string, v: string) | MoreItems(k: string, v: string, rest: string)

  function HeadOf(s: string): (h: Head)
    ensures !h.NoItem? ==> '=' !in h.k && ';' !in h.v
    ensures h.MoreItems? ==> |h.rest| < |s|
  {
    var b := IndexOf(s, '=');
    if b == |s| then NoItem
    else
      var a := s[b + 1..];
      var e := IndexOf(a, ';');
      if e == |a| then LastItem(s[..b], a) else MoreItems(s[..b], a[..e], a[e + 1..])
  }

  function UnflattenInto(m: Params, s: string): Params
    decreases |s|
  {
    match HeadOf(s)
    case NoItem => m
    case LastItem(k, v) => Put(m, k, Forced(k, v))
    case MoreItems(k, v, rest) => UnflattenInto(Put(m, k, Forced(k, v)), rest)
  }

  function Unflatten(s: string): Params { UnflattenInto([], s) }

  /** Keys and values may not contain `=` or `;`; such a call is ignored. With `qcom` a default
      is written for `hdr-need-1x` first. */
  function Set(m: Params, k: string, v: string, qcom: bool): Params {
    if '=' in k || ';' in k || '=' in v || ';' in v then m
    else
      var m1 := if qcom && Lookup(m, "hdr-need-1x") == "" then Put(m, "hdr-need-1x", Forced("hdr-need-1x", "false")) else m;
      Put(m1, k, Forced(k, v))
  }

  /** One iteration of the flattening loop. */
  lemma FlattenStep(m: Params, i: nat, acc: string)
    requires i < |m|
    ensures acc + Flatten(m[i..]) == acc + m[i].0 + "=" + m[i].1 + (if i != |m| - 1 then ";" else "") + Flatten(m[i + 1..])
  {
    assert m[i..][0] == m[i] && m[i..][1..] == m[i + 1..];
  }

  lemma FlattenStart(m: Params)
    ensures "" + Flatten(m) == Flatten(m) && Flatten(m[|m|..]) == ""
  {
  }

  // ------------------------------------------------------------------------- invariant

  ghost predicate GoodItem(p: (string, string)) { '=' !in p.0 && ';' !in p.1 && p.1 == Forced(p.0, p.1) }

  ghost predicate Good(m: Params) { Sorted(m) && forall i | 0 <= i < |m| :: GoodItem(m[i]) }

  ghost predicate Above(m: Params, k: string) { forall i | 0 <= i < |m| :: Less(k, m[i].0) }

  lemma {:induction false} PutGood(m: Params, k: string, v: string)
    requires Good(m) && GoodItem((k, v))
    ensures Good(Put(m, k, v)) && Lookup(Put(m, k, v), k) == v
    ensures forall j: string | Above(m, j) && Less(j, k) :: Above(Put(m, k, v), j)
    ensures forall j: string | j != k :: Lookup(Put(m, k, v), j) == Lookup(m, j)
  {
    if m != [] {
      var t := m[1..];
      assert Good(t) && Above(t, m[0].0);
      if m[0].0 == k {
        SortedCons((k, v), t);
      } else if Less(k, m[0].0) {
        forall i | 0 <= i < |m| ensures Less(k, m[i].0) {
          if i > 0 { LessTransitive(k, m[0].0, m[i].0); }
        }
        SortedCons((k, v), m);
      } else {
        LessTotal(k, m[0].0);
        PutGood(t, k, v);
        SortedCons(m[0], Put(t, k, v));
        forall j: string | Above(m, j) && Less(j, k) ensures Above(Put(m, k, v), j) {
          assert Above(t, j);
        }
      }
    }
  }

  lemma SortedCons(p: (string, string), t: Params)
    requires Good(t) && GoodItem(p) && Above(t, p.0)
    ensures Good([p] + t)
  {
  }

  lemma {:induction false} DropGood(m: Params, k: string)
    requires Good(m)
    ensures Good(Drop(m, k)) && Lookup(Drop(m, k), k) == ""
    ensures forall j: string | Above(m, j) :: Above(Drop(m, k), j)
    ensures forall j: string | j != k :: Lookup(Drop(m, k), j) == Lookup(m, j)
  {
    if m != [] {
      var t := m[1..];
      assert Good(t) && Above(t, m[0].0);
      if m[0].0 == k {
        AbsentAbove(t, k);
      } else {
        DropGood(t, k);
        SortedCons(m[0], Drop(t, k));
        forall j: string | Above(m, j) ensures Above(Drop(m, k), j) {
          assert Above(t, j);
        }
      }
    }
  }

  lemma {:induction false} AbsentAbove(m: Params, k: string)
    requires Above(m, k)
    ensures Lookup(m, k) == ""
  {
    if m != [] {
      LessIrreflexive(k);
      AbsentAbove(m[1..], k);
    }
  }

  lemma ForcedGood(k: string, v: string)
    requires '=' !in k && ';' !in v
    ensures GoodItem((k, Forced(k, v)))
  {
  }

  lemma {:induction false} UnflattenGood(m: Params, s: string)
    requires Good(m)
    ensures Good(UnflattenInto(m, s))
    decreases |s|
  {
    hide HeadOf, Good, GoodItem, Put, Forced;
    match HeadOf(s)
    case NoItem =>
    case LastItem(k, v) =>
      ForcedGood(k, v);
      PutGood(m, k, Forced(k, v));
    case MoreItems(k, v, rest) =>
      ForcedGood(k, v);
      PutGood(m, k, Forced(k, v));
      UnflattenGood(Put(m, k, Forced(k, v)), rest);
  }

  lemma SetGood(m: Params, k: string, v: string, qcom: bool)
    requires Good(m)
    ensures Good(Set(m, k, v, qcom))
    ensures '=' !in k && ';' !in k && '=' !in v && ';' !in v ==> Lookup(Set(m, k, v, qcom), k) == Forced(k, v)
  {
    if !('=' in k || ';' in k || '=' in v || ';' in v) {
      ForcedGood("hdr-need-1x", "false");
      ForcedGood(k, v);
      var m1 := if qcom && Lookup(m, "hdr-need-1x") == "" then Put(m, "hdr-need-1x", Forced("hdr-need-1x", "false")) else m;
      PutGood(m, "hdr-need-1x", Forced("hdr-need-1x", "false"));
      PutGood(m1, k, Forced(k, v));
    }
  }

  // ------------------------------------------------------------------------ round trip

  lemma {:induction false} PutLast(m: Params, k: string, v: string)
    requires forall i | 0 <= i < |m| :: Less(m[i].0, k)
    ensures Put(m, k, v) == m + [(k, v)]
  {
    if m != [] {
      PutLast(m[1..], k, v);
      LessIrreflexive(k);
      if Less(k, m[0].0) {
        LessTransitive(k, m[0].0, k);
      }
      assert m + [(k, v)] == [m[0]] + (m[1..] + [(k, v)]);
    }
  }

  lemma IndexAfter(a: string, c: char, rest: string)
    requires c !in a
    ensures IndexOf(a + [c] + rest, c) == |a|
  {
    var s := a + [c] + rest;
    var r := IndexOf(s, c);
    assert s[|a|] == c;
    assert forall i | 0 <= i < |a| :: s[i] == a[i];
  }

  lemma IndexMissing(a: string, c: char)
    requires c !in a
    ensures IndexOf(a, c) == |a|
  {
  }

  lemma HeadOfLast(k: string, v: string)
    requires '=' !in k && ';' !in v
    ensures HeadOf(k + "=" + v) == LastItem(k, v)
  {
    var s := k + "=" + v;
    IndexAfter(k, '=', v);
    assert s[..|k|] == k && s[|k| + 1..] == v;
    IndexMissing(v, ';');
  }

  lemma HeadOfMore(k: string, v: string, f: string)
    requires '=' !in k && ';' !in v
    ensures HeadOf(k + "=" + v + ";" + f) == MoreItems(k, v, f)
  {
    var s, a := k + "=" + v + ";" + f, v + ";" + f;
    assert s == k + "=" + a;
    IndexAfter(k, '=', a);
    assert s[..|k|] == k && s[|k| + 1..] == a;
    IndexAfter(v, ';', f);
    assert a[..|v|] == v && a[|v| + 1..] == f;
  }

  lemma GoodSplit(p: Params, q: Params)
    requires Good(p + q) && q != []
    ensures GoodItem(q[0]) && (forall i | 0 <= i < |p| :: Less(p[i].0, q[0].0))
    ensures p + q == (p + [q[0]]) + q[1..]
  {
    assert (p + q)[|p|] == q[0];
    forall i | 0 <= i < |p| ensures Less(p[i].0, q[0].0) {
      assert (p + q)[i] == p[i];
    }
  }

  /** Reading the text of `q` appends the pairs of `q`, one after the other. */
  lemma {:induction false} UnflattenFlatten(p: Params, q: Params)
    requires Good(p + q)
    ensures UnflattenInto(p, Flatten(q)) == p + q
    decreases |q|
  {
    if q == [] {
      assert p + q == p;
      assert UnflattenInto(p, "") == p;
    } else {
      var k, v := q[0].0, q[0].1;
      GoodSplit(p, q);
      PutLast(p, k, v);
      if |q| == 1 {
        HeadOfLast(k, v);
        assert q == [(k, v)];
      } else {
        HeadOfMore(k, v, Flatten(q[1..]));
        UnflattenFlatten(p + [(k, v)], q[1..]);
      }
    }
  }

  lemma GoodText(m: Params)
    ensures Good(m) ==> Unflatten(Flatten(m)) == m
  {
    if Good(m) {
      assert [] + m == m;
      UnflattenFlatten([], m);
    }
  }

  // -------------------------------------------------------------------------------- runs

  datatype Op = OpUnflatten(s: string) | OpSet(k: string, v: string) | OpRemove(k: string)

  function Run(m: Params, ops: seq<Op>, qcom: bool): Params
    decreases |ops|
  {
    if ops == [] then m
    else
      var m1 := match ops[0]
                case OpUnflatten(s) => Unflatten(s)
                case OpSet(k, v) => Set(m, k, v, qcom)
                case OpRemove(k) => Drop(m, k);
      Run(m1, ops[1..], qcom)
  }

  lemma {:induction false} RunGood(m: Params, ops: seq<Op>, qcom: bool)
    requires Good(m)
    ensures Good(Run(m, ops, qcom))
    decreases |ops|
  {
    if ops != [] {
      match ops[0]
      case OpUnflatten(s) =>
        UnflattenGood([], s);
        RunGood(Unflatten(s), ops[1..], qcom);
      case OpSet(k, v) =>
        SetGood(m, k, v, qcom);
        RunGood(Set(m, k, v, qcom), ops[1..], qcom);
      case OpRemove(k) =>
        DropGood(m, k);
        RunGood(Drop(m, k), ops[1..], qcom);
    }
  }

  /** Every parameter map that any sequence of operations on any texts can produce survives
      flattening and unflattening unchanged. */
  lemma RoundTrip(ops: seq<Op>, qcom: bool)
    ensures var m := Run([], ops, qcom); Unflatten(Flatten(m)) == m
  {
    RunGood([], ops, qcom);
    GoodText(Run([], ops, qcom));
  }

  // --------------------------------------------------------------------- numbers and sizes

  function GetInt(m: Params, k: string, max: int): int {
    if Lookup(m, k) == "" then -1 else ToInt32(Strtol(Lookup(m, k), 0, max).0)
  }

  function SetInt(m: Params, k: string, v: int, qcom: bool): Params { Set(m, k, PrintInt(v), qcom) }

  datatype Pair = NoPair | Pair(first: int, second: int, rest: string)

  /** Two base-ten numbers separated by exactly `delim`. */
  function ParsePair(s: string, delim: char, max: int): (r: Pair)
    ensures r.Pair? ==> |r.rest| < |s|
  {
    var (w, e) := Strtol(s, 10, max);
    if e == [] || e[0] != delim then NoPair
    else
      var (h, rest) := Strtol(e[1..], 10, max);
      Pair(ToInt32(w), ToInt32(h), rest)
  }

  function PrintPair(w: int, h: int): string { PrintInt(w) + "x" + PrintInt(h) }

  const PREVIEW_SIZE := "preview-size"

  function SetPreviewSize(m: Params, w: int, h: int, qcom: bool): Params { Set(m, PREVIEW_SIZE, PrintPair(w, h), qcom) }

  function GetPreviewSize(m: Params, max: int): (int, int) {
    var p := ParsePair(Lookup(m, PREVIEW_SIZE), 'x', max);
    if Lookup(m, PREVIEW_SIZE) == "" || p.NoPair? then (-1, -1) else (p.first, p.second)
  }

  lemma PairText(w: int, h: int, rest: string, max: int)
    requires Int32(w) && Int32(h) && max >= 0x7FFF_FFFF && !StartsWithDigit(rest, 10)
    ensures ParsePair(PrintPair(w, h) + rest, 'x', max) == Pair(w, h, rest)
  {
    var tail := "x" + (PrintInt(h) + rest);
    assert PrintPair(w, h) + rest == PrintInt(w) + tail;
    StrtolPrint(w, tail, max);
    assert tail[1..] == PrintInt(h) + rest;
    StrtolPrint(h, rest, max);
    hide Strtol, PrintInt;
    ToInt32Id(w);
    ToInt32Id(h);
  }

  /** An integer stored under an ordinary key reads back, directly and through the flat text. */
  lemma IntRoundTrip(m: Params, k: string, v: int, qcom: bool, max: int)
    requires Good(m) && Int32(v) && max >= 0x7FFF_FFFF
    requires '=' !in k && ';' !in k && k != "face-detection" && k != "face-detection-values"
    ensures GetInt(SetInt(m, k, v, qcom), k, max) == v
    ensures GetInt(Unflatten(Flatten(SetInt(m, k, v, qcom))), k, max) == v
  {
    PrintedClean(v);
    StoredValue(m, k, PrintInt(v), qcom);
    hide Strtol, PrintInt, Flatten, UnflattenInto, Lookup, Set;
    StrtolPrintAnyBase(v, max);
    ToInt32Id(v);
  }

  lemma PrintedClean(v: int)
    ensures PrintInt(v) != "" && '=' !in PrintInt(v) && ';' !in PrintInt(v)
  {
  }

  /** A preview size reads back, directly and through the flat text. */
  lemma SizeRoundTrip(m: Params, w: int, h: int, qcom: bool, max: int)
    requires Good(m) && Int32(w) && Int32(h) && max >= 0x7FFF_FFFF
    ensures GetPreviewSize(SetPreviewSize(m, w, h, qcom), max) == (w, h)
    ensures GetPreviewSize(Unflatten(Flatten(SetPreviewSize(m, w, h, qcom))), max) == (w, h)
  {
    PairClean(w, h);
    PairText(w, h, "", max);
    assert PrintPair(w, h) + "" == PrintPair(w, h);
    PreviewKeyClean();
    StoredValue(m, PREVIEW_SIZE, PrintPair(w, h), qcom);
    hide PrintPair, ParsePair, Flatten, UnflattenInto, Lookup, Set;
  }

  lemma PreviewKeyClean()
    ensures '=' !in PREVIEW_SIZE && ';' !in PREVIEW_SIZE
    ensures PREVIEW_SIZE != "face-detection" && PREVIEW_SIZE != "face-detection-values"
  {
    assert |PREVIEW_SIZE| == 12;
  }

  /** A clean value stored under an ordinary clean key is found there, and survives flattening. */
  lemma StoredValue(m: Params, k: string, v: string, qcom: bool)
    requires Good(m) && '=' !in k && ';' !in k && k != "face-detection" && k != "face-detection-values"
    requires '=' !in v && ';' !in v
    ensures Lookup(Set(m, k, v, qcom), k) == v && Unflatten(Flatten(Set(m, k, v, qcom))) == Set(m, k, v, qcom)
  {
    var m1 := Set(m, k, v, qcom);
    SetGood(m, k, v, qcom);
    GoodText(m1);
  }

  lemma PairClean(w: int, h: int)
    ensures PrintPair(w, h) != "" && '=' !in PrintPair(w, h) && ';' !in PrintPair(w, h)
  {
    PrintedClean(w);
    PrintedClean(h);
  }

  // ------------------------------------------------------------------------- lists of sizes

  type Size = (int, int)

  /** Sizes up to the first one that cannot be read; an unreadable rest is ignored. */
  function ParseSizes(s: string, max: int): seq<Size>
    decreases |s|
  {
    var p := ParsePair(s, 'x', max);
    if p.NoPair? || (p.rest != [] && p.rest[0] != ',') then []
    else [(p.first, p.second)] + if p.rest == [] then [] else ParseSizes(p.rest[1..], max)
  }

  function PrintSizes(l: seq<Size>): string {
    if l == [] then "" else PrintPair(l[0].0, l[0].1) + if |l| == 1 then "" else "," + PrintSizes(l[1..])
  }

  /** Every list of sizes reads back from its comma-joined text. */
  lemma {:induction false} SizesRoundTrip(l: seq<Size>, max: int)
    requires max >= 0x7FFF_FFFF && forall i | 0 <= i < |l| :: Int32(l[i].0) && Int32(l[i].1)
    ensures ParseSizes(PrintSizes(l), max) == l
  {
    if l == [] {
      assert ParsePair("", 'x', max).NoPair?;
    } else {
      var rest := if |l| == 1 then "" else "," + PrintSizes(l[1..]);
      PairText(l[0].0, l[0].1, rest, max);
      hide PrintPair, ParsePair;
      if |l| > 1 {
        assert rest[1..] == PrintSizes(l[1..]);
        SizesRoundTrip(l[1..], max);
      }
      assert l == [l[0]] + l[1..];
    }
  }
}
