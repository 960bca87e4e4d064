/** What setting a parameter does to every parameter, what is read from any text, and that two
    keys are always off, told without the map's representation. */
module CameraLaws {
  import Decimal
  import opened CameraParams

  const HDR_KEY := "hdr-need-1x"

  predicate FaceKey(k: string) { k == "face-detection" || k == "face-detection-values" }

  predicate Clean(s: string) { '=' !in s && ';' !in s }

  /** What reads under `j` after `k` was set to `v`, given what read before. */
  function ReadAfter(before: string, j: string, k: string, v: string, qcom: bool): string {
    if j == k then (if FaceKey(k) then "off" else v)
    else if qcom && j == HDR_KEY && before == "" then "false"
    else before
  }

  lemma HdrKey()
    ensures Clean(HDR_KEY) && Clean("false") && !FaceKey(HDR_KEY)
  {
    assert |HDR_KEY| == 11 && |"face-detection"| == 14;
  }

  /** A set with an unclean key or value changes nothing; any other set changes the key that is
      set, the default of `hdr-need-1x` on qcom builds, and no other parameter. */
  lemma SetExact(m: Params, k: string, v: string, qcom: bool, j: string)
    requires Good(m)
    ensures !(Clean(k) && Clean(v)) ==> Set(m, k, v, qcom) == m
    ensures Clean(k) && Clean(v) ==> Lookup(Set(m, k, v, qcom), j) == ReadAfter(Lookup(m, j), j, k, v, qcom)
  {
    if Clean(k) && Clean(v) {
      HdrKey();
      ForcedGood(HDR_KEY, "false");
      ForcedGood(k, v);
      PutGood(m, HDR_KEY, "false");
      var m1 := if qcom && Lookup(m, HDR_KEY) == "" then Put(m, HDR_KEY, "false") else m;
      PutGood(m1, k, Forced(k, v));
      hide Put, Lookup, Good, GoodItem;
      assert Set(m, k, v, qcom) == Put(m1, k, Forced(k, v));
    }
  }

  lemma {:induction false} FaceOff(m: Params, k: string)
    requires Good(m) && FaceKey(k)
    ensures Lookup(m, k) == "" || Lookup(m, k) == "off"
  {
    if m != [] {
      assert GoodItem(m[0]);
      assert Good(m[1..]);
      FaceOff(m[1..], k);
    }
  }

  /** In every run the two face-detection parameters are absent or off, whatever was set or read. */
  lemma FaceAlwaysOff(ops: seq<Op>, qcom: bool, k: string)
    requires FaceKey(k)
    ensures var v := Lookup(Run([], ops, qcom), k); v == "" || v == "off"
  {
    RunGood([], ops, qcom);
    FaceOff(Run([], ops, qcom), k);
  }

  // -------------------------------------------------------------------- reading any text

  /** Items of a text: the keys have no `=`, the values no `;`. */
  ghost predicate Readable(p: Params) { forall i | 0 <= i < |p| :: '=' !in p[i].0 && ';' !in p[i].1 }

  /** The value of the last item with key `k`, empty if there is none. */
  function LastValue(p: Params, k: string): string {
    if p == [] then ""
    else
      var n := |p| - 1;
      if p[n].0 == k then (if FaceKey(k) then "off" else p[n].1) else LastValue(p[..n], k)
  }

  /** The items of a text, and what is left after them. */
  function TextOf(p: Params, junk: string): string { if p == [] then junk else Flatten(p) + ";" + junk }

  lemma FlattenCons(k: string, v: string, q: Params)
    ensures Flatten([(k, v)] + q) == if q == [] then k + "=" + v else k + "=" + v + ";" + Flatten(q)
  {
    assert ([(k, v)] + q)[1..] == q;
  }

  lemma TextCons(k: string, v: string, q: Params, junk: string)
    ensures TextOf([(k, v)] + q, junk) == k + "=" + v + ";" + TextOf(q, junk)
  {
    FlattenCons(k, v, q);
    hide Flatten;
    if q != [] {
      assert (k + "=" + v + ";" + Flatten(q)) + ";" + junk == k + "=" + v + ";" + (Flatten(q) + ";" + junk);
    }
  }

  /** What the head of a text says about it. */
  lemma HeadText(s: string)
    ensures match HeadOf(s)
      case NoItem => '=' !in s
      case LastItem(k, v) => s == k + "=" + v
      case MoreItems(k, v, rest) => s == k + "=" + v + ";" + rest
  {
    var h := HeadOf(s);
    var b := IndexOf(s, '=');
    if b == |s| {
      assert '=' !in s;
    } else {
      SplitAt(s, '=');
      var a := s[b + 1..];
      var e := IndexOf(a, ';');
      assert h == if e == |a| then LastItem(s[..b], a) else MoreItems(s[..b], a[..e], a[e + 1..]);
      hide HeadOf, IndexOf;
      if e < |a| {
        SplitAt(a, ';');
        Regroup(s[..b], a[..e], a[e + 1..]);
      }
    }
  }

  lemma SplitAt(s: string, c: char)
    requires IndexOf(s, c) < |s|
    ensures var b := IndexOf(s, c); s == s[..b] + [c] + s[b + 1..]
  {
  }

  lemma Regroup(k: string, v: string, rest: string)
    ensures k + "=" + (v + ";" + rest) == k + "=" + v + ";" + rest
  {
  }

  /** `s` is the text of the items `p`, alone or followed by `junk`. */
  ghost predicate IsText(s: string, p: Params, junk: string) {
    Readable(p) && '=' !in junk && (s == TextOf(p, junk) || (p != [] && s == Flatten(p)))
  }

  /** Every text is a list of items, possibly followed by a rest without `=`. */
  lemma {:induction false} EveryText(s: string) returns (p: Params, junk: string)
    ensures IsText(s, p, junk)
    decreases |s|
  {
    HeadText(s);
    var h := HeadOf(s);
    hide HeadOf, Flatten;
    match h
    case NoItem => p, junk := [], s;
    case LastItem(k, v) =>
      p, junk := [(k, v)] + [], "";
      FlattenCons(k, v, []);
    case MoreItems(k, v, rest) =>
      var q;
      q, junk := EveryText(rest);
      p := [(k, v)] + q;
      FlattenCons(k, v, q);
      TextCons(k, v, q, junk);
  }

  /** Storing the items one after the other. */
  function PutAll(m: Params, p: Params): Params
    decreases |p|
  {
    if p == [] then m else PutAll(Put(m, p[0].0, Forced(p[0].0, p[0].1)), p[1..])
  }

  lemma {:induction false} ReadsItems(m: Params, p: Params)
    requires Readable(p)
    ensures UnflattenInto(m, Flatten(p)) == PutAll(m, p)
    decreases |p|
  {
    if p == [] {
      assert UnflattenInto(m, "") == m;
    } else {
      var k, v := p[0].0, p[0].1;
      if |p| == 1 {
        HeadOfLast(k, v);
        assert p[1..] == [];
      } else {
        HeadOfMore(k, v, Flatten(p[1..]));
        ReadsItems(Put(m, k, Forced(k, v)), p[1..]);
      }
    }
  }

  lemma {:induction false} ReadsText(m: Params, p: Params, junk: string)
    requires Readable(p) && '=' !in junk
    ensures UnflattenInto(m, TextOf(p, junk)) == PutAll(m, p)
    decreases |p|
  {
    if p == [] {
      IndexMissing(junk, '=');
    } else {
      var k, v := p[0].0, p[0].1;
      HeadOfMore(k, v, TextOf(p[1..], junk));
      assert p == [(k, v)] + p[1..];
      TextCons(k, v, p[1..], junk);
      hide HeadOf, TextOf;
      ReadsText(Put(m, k, Forced(k, v)), p[1..], junk);
    }
  }

  lemma {:induction false} PutAllReads(m: Params, p: Params, k: string)
    requires Good(m) && Readable(p)
    ensures Good(PutAll(m, p))
    ensures Lookup(PutAll(m, p), k) == if HasItem(p, k) then LastValue(p, k) else Lookup(m, k)
    decreases |p|
  {
    if p != [] {
      var n := |p| - 1;
      PutAllReads(m, p[..n], k);
      PutAllLast(m, p);
      ForcedGood(p[n].0, p[n].1);
      PutGood(PutAll(m, p[..n]), p[n].0, Forced(p[n].0, p[n].1));
      HasItemLast(p, k);
    }
  }

  predicate HasItem(p: Params, k: string) { exists i :: 0 <= i < |p| && p[i].0 == k }

  lemma HasItemLast(p: Params, k: string)
    requires p != []
    ensures HasItem(p, k) <==> p[|p| - 1].0 == k || HasItem(p[..|p| - 1], k)
  {
    var q := p[..|p| - 1];
    if i :| 0 <= i < |p| && p[i].0 == k { assert i < |q| ==> q[i].0 == k; }
    if i :| 0 <= i < |q| && q[i].0 == k { assert p[i].0 == k; }
  }

  lemma {:induction false} PutAllLast(m: Params, p: Params)
    requires p != []
    ensures var e := p[|p| - 1]; PutAll(m, p) == Put(PutAll(m, p[..|p| - 1]), e.0, Forced(e.0, e.1))
    decreases |p|
  {
    if |p| > 1 {
      PutAllLast(Put(m, p[0].0, Forced(p[0].0, p[0].1)), p[1..]);
      assert p[1..][..|p| - 2] == p[..|p| - 1][1..];
    } else {
      assert p[1..] == [] && p[..0] == [];
    }
  }

  lemma {:induction false} NoItemNoValue(p: Params, k: string)
    requires !HasItem(p, k)
    ensures LastValue(p, k) == ""
  {
    if p != [] {
      HasItemLast(p, k);
      NoItemNoValue(p[..|p| - 1], k);
    }
  }

  /** Reading any text: it is a list of items, perhaps with a rest that is ignored, and every
      parameter reads as the last item with its key, the face-detection ones as off. */
  lemma ReadAnyText(s: string) returns (p: Params, junk: string)
    ensures IsText(s, p, junk)
    ensures forall k: string :: Lookup(Unflatten(s), k) == LastValue(p, k)
  {
    p, junk := EveryText(s);
    if s == TextOf(p, junk) { ReadsText([], p, junk); } else { ReadsItems([], p); }
    forall k: string ensures Lookup(Unflatten(s), k) == LastValue(p, k) {
      PutAllReads([], p, k);
      if !HasItem(p, k) { NoItemNoValue(p, k); }
    }
  }

  // ------------------------------------------------------------------ sizes and integers

  /** A preview size is stored as its text under its own key, next to all other parameters. */
  lemma PreviewText(m: Params, w: int, h: int, qcom: bool, j: string)
    requires Good(m)
    ensures Lookup(SetPreviewSize(m, w, h, qcom), "preview-size") == Decimal.PrintInt(w) + "x" + Decimal.PrintInt(h)
    ensures j != "preview-size" && j != HDR_KEY ==> Lookup(SetPreviewSize(m, w, h, qcom), j) == Lookup(m, j)
  {
    PairClean(w, h);
    PreviewKeyClean();
    SetExact(m, PREVIEW_SIZE, PrintPair(w, h), qcom, PREVIEW_SIZE);
    SetExact(m, PREVIEW_SIZE, PrintPair(w, h), qcom, j);
    hide Set, Lookup, Good;
  }

  /** An absent integer reads as -1, an absent or unreadable size as -1 by -1. */
  lemma AbsentReads(m: Params, k: string, max: int)
    ensures Lookup(m, k) == "" ==> GetInt(m, k, max) == -1
    ensures Lookup(m, PREVIEW_SIZE) == "" || ParsePair(Lookup(m, PREVIEW_SIZE), 'x', max).NoPair? ==> GetPreviewSize(m, max) == (-1, -1)
  {
  }

  /** A text that is not two numbers with the delimiter between them is no pair: it does not start
      with a number, or another character follows the first number. */
  lemma NotAPair(w: int, c: char, rest: string, max: int)
    requires Decimal.Int32(w) && max >= 0x7FFF_FFFF && c != 'x' && Decimal.DigitOf(c) >= 10
    ensures ParsePair(Decimal.PrintInt(w) + ([c] + rest), 'x', max).NoPair? && ParsePair(Decimal.PrintInt(w), 'x', max).NoPair?
  {
    Decimal.StrtolPrint(w, [c] + rest, max);
    Decimal.StrtolPrint(w, "", max);
    assert Decimal.PrintInt(w) + "" == Decimal.PrintInt(w);
    hide Decimal.Strtol, Decimal.PrintInt;
  }

  lemma PrintSizesCons(p: Size, l: seq<Size>)
    requires l != []
    ensures PrintSizes([p] + l) == PrintPair(p.0, p.1) + "," + PrintSizes(l)
  {
    assert ([p] + l)[1..] == l;
  }

  ghost predicate AllInt32(l: seq<Size>) { forall i | 0 <= i < |l| :: Decimal.Int32(l[i].0) && Decimal.Int32(l[i].1) }

  /** Reading one size off a text whose next character is no digit. */
  lemma ReadSize(p: Size, rest: string, max: int)
    requires max >= 0x7FFF_FFFF && Decimal.Int32(p.0) && Decimal.Int32(p.1) && !Decimal.StartsWithDigit(rest, 10)
    ensures ParseSizes(PrintPair(p.0, p.1) + rest, max) ==
      if rest != [] && rest[0] != ',' then [] else [p] + if rest == [] then [] else ParseSizes(rest[1..], max)
  {
    PairText(p.0, p.1, rest, max);
    hide PrintPair, ParsePair;
  }

  /** Sizes after which something unreadable follows: behind a comma it is ignored, behind any
      other character the size before it is dropped too. */
  lemma {:induction false} SizesStop(l: seq<Size>, c: char, junk: string, max: int)
    requires l != [] && max >= 0x7FFF_FFFF && AllInt32(l) && Decimal.DigitOf(c) >= 10
    requires c == ',' ==> ParsePair(junk, 'x', max).NoPair?
    ensures ParseSizes(PrintSizes(l) + ([c] + junk), max) == if c == ',' then l else l[..|l| - 1]
    decreases |l|
  {
    hide ParsePair, ParseSizes, PrintSizes, PrintPair;
    var p, t := l[0], l[1..];
    var tail := [c] + junk;
    assert l == [p] + t;
    if t == [] {
      assert l == [p] && tail[1..] == junk;
      OneSize(p);
      ReadSize(p, tail, max);
      if c == ',' { NoSizes(junk, max); }
    } else {
      assert AllInt32(t);
      PrintSizesCons(p, t);
      var rest := "," + (PrintSizes(t) + tail);
      assert PrintSizes(l) + tail == PrintPair(p.0, p.1) + rest;
      ReadSize(p, rest, max);
      assert rest[1..] == PrintSizes(t) + tail;
      SizesStop(t, c, junk, max);
      assert [p] + t[..|t| - 1] == l[..|l| - 1];
    }
  }

  lemma NoSizes(junk: string, max: int)
    requires ParsePair(junk, 'x', max).NoPair?
    ensures ParseSizes(junk, max) == []
  {
    hide ParsePair;
  }

  lemma OneSize(p: Size)
    ensures PrintSizes([p]) == PrintPair(p.0, p.1)
  {
    assert PrintPair(p.0, p.1) + "" == PrintPair(p.0, p.1);
  }
}
