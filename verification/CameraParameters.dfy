/** CameraParameters as the source writes it: a map changed in place, texts built and
    scanned in loops. Absent values are null in the source, None here. */
module CameraParametersClass {
  import opened Decimal
  import opened CameraParams
  import opened CameraLaws

  datatype Option<T> = None | Some(value: T)

  class CameraParameters {
    var mMap: Params
    const qcom: bool
    const longMax: int

    /** `qcom` is the QCOM_HARDWARE build switch, `longMax` the largest long of the target. */
    constructor (qcom: bool, longMax: int)
      ensures mMap == [] && this.qcom == qcom && this.longMax == longMax
    {
      mMap := [];
      this.qcom := qcom;
      this.longMax := longMax;
    }

    method Flatten() returns (flattened: string)
      ensures flattened == CameraParams.Flatten(mMap)
      ensures Good(mMap) ==> CameraParams.Unflatten(flattened) == mMap
    {
      GoodText(mMap);
      assert mMap[0..] == mMap;
      FlattenStart(mMap);
      hide Good, CameraParams.Unflatten, CameraParams.Flatten;
      flattened := "";
      for i := 0 to |mMap|
        invariant CameraParams.Flatten(mMap) == flattened + CameraParams.Flatten(mMap[i..])
      {
        FlattenStep(mMap, i, flattened);
        flattened := flattened + mMap[i].0;
        flattened := flattened + "=";
        flattened := flattened + mMap[i].1;
        if i != |mMap| - 1 {
          flattened := flattened + ";";
        }
      }
    }

    method Unflatten(params: string)
      modifies this
      ensures mMap == CameraParams.Unflatten(params) && Good(mMap)
    {
      UnflattenGood([], params);
      hide Put, Forced, Good, HeadOf;
      mMap := [];
      var a := params;
      while true
        invariant UnflattenInto(mMap, a) == CameraParams.Unflatten(params)
        decreases |a|
      {
        var h := ReadItem(a);
        if h.NoItem? { break; }
        mMap := Put(mMap, h.k, Forced(h.k, h.v));
        if h.LastItem? { break; }
        a := h.rest;
      }
    }

    /** The bounds of the next key and of its value. */
    method ReadItem(a: string) returns (h: Head)
      ensures h == HeadOf(a)
    {
      hide IndexOf;
      var b := IndexOf(a, '=');
      if b == |a| { return NoItem; }
      var k, rest := a[..b], a[b + 1..];
      var e := IndexOf(rest, ';');
      if e == |rest| { return LastItem(k, rest); }
      return MoreItems(k, rest[..e], rest[e + 1..]);
    }

    method Set(key: Option<string>, value: Option<string>)
      requires Good(mMap)
      modifies this
      ensures Good(mMap)
      ensures mMap == if key.Some? && value.Some? then CameraParams.Set(old(mMap), key.value, value.value, qcom) else old(mMap)
      ensures if key.Some? && value.Some? && Clean(key.value) && Clean(value.value)
              then forall j: string :: Lookup(mMap, j) == ReadAfter(old(Lookup(mMap, j)), j, key.value, value.value, qcom)
              else mMap == old(mMap)
    {
      if key.None? || value.None? { return; }
      var k, v := key.value, value.value;
      SetGood(mMap, k, v, qcom);
      forall j: string ensures Clean(k) && Clean(v) ==>
        Lookup(CameraParams.Set(mMap, k, v, qcom), j) == ReadAfter(Lookup(mMap, j), j, k, v, qcom)
      {
        SetExact(mMap, k, v, qcom, j);
      }
      hide ReadAfter, Lookup, Put;
      if '=' in k || ';' in k { return; }
      if '=' in v || ';' in v { return; }
      if qcom {
        var g := Get("hdr-need-1x");
        if g.None? {
          mMap := Put(mMap, "hdr-need-1x", Forced("hdr-need-1x", "false"));
        }
      }
      mMap := Put(mMap, k, Forced(k, v));
    }

    method Get(key: string) returns (r: Option<string>)
      ensures r == if Lookup(mMap, key) == "" then None else Some(Lookup(mMap, key))
    {
      var v := Lookup(mMap, key);
      if |v| == 0 { return None; }
      return Some(v);
    }

    method GetInt(key: string) returns (r: int)
      ensures r == CameraParams.GetInt(mMap, key, longMax)
    {
      var v := Get(key);
      if v.None? { return -1; }
      return ToInt32(Strtol(v.value, 0, longMax).0);
    }

    method Remove(key: string)
      requires Good(mMap)
      modifies this
      ensures Good(mMap) && mMap == Drop(old(mMap), key)
      ensures Lookup(mMap, key) == "" && forall j: string | j != key :: Lookup(mMap, j) == old(Lookup(mMap, j))
    {
      DropGood(mMap, key);
      mMap := Drop(mMap, key);
    }

    /** Storing a size and reading it back, for every map and all 32-bit values. */
    method SetPreviewSize(width: int, height: int)
      requires Good(mMap)
      modifies this
      ensures Good(mMap) && mMap == CameraParams.SetPreviewSize(old(mMap), width, height, qcom)
      ensures Int32(width) && Int32(height) && longMax >= 0x7FFF_FFFF ==>
        CameraParams.GetPreviewSize(mMap, longMax) == (width, height)
    {
      ghost var m := mMap;
      Set(Some(PREVIEW_SIZE), Some(PrintInt(width) + "x" + PrintInt(height)));
      if Int32(width) && Int32(height) && longMax >= 0x7FFF_FFFF {
        SizeRoundTrip(m, width, height, qcom, longMax);
      }
    }

    method GetPreviewSize() returns (width: int, height: int)
      ensures (width, height) == CameraParams.GetPreviewSize(mMap, longMax)
    {
      width, height := -1, -1;
      var p := Get(PREVIEW_SIZE);
      if p.None? { return; }
      var pair := ParsePair(p.value, 'x', longMax);
      if pair.Pair? {
        width, height := pair.first, pair.second;
      }
    }
  }

  /** The scanning loop over a list of sizes: it ends on every text. */
  method ParseSizesList(text: string, max: int) returns (sizes: seq<Size>)
    ensures sizes == ParseSizes(text, max)
  {
    sizes := [];
    var start := text;
    while true
      invariant sizes + ParseSizes(start, max) == ParseSizes(text, max)
      decreases |start|
    {
      var p := ParsePair(start, 'x', max);
      if p.NoPair? || (p.rest != [] && p.rest[0] != ',') { return; }
      sizes := sizes + [(p.first, p.second)];
      if p.rest == [] { return; }
      start := p.rest[1..];
    }
  }
}
