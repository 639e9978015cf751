/** Laws of the allowlist check of scripts/lib/placeholders.js: which values count as
    filled in. */
module AllowlistLaws {
  import opened Text
  import opened Placeholders
  import Decimals

  // ---- Items between commas --------------------------------------------------------------

  function JoinCommas(items: seq<string>): string
    requires items != []
  {
    if |items| == 1 then items[0] else items[0] + "," + JoinCommas(items[1..])
  }

  lemma CommaFree(v: string, i: nat, j: nat)
    requires i <= j <= |v|
    ensures (forall k :: i <= k < j ==> v[k] != ',') <==> ',' !in v[i..j]
  {
    if ',' !in v[i..j] {
      forall k | i <= k < j ensures v[k] != ',' {
        assert v[i..j][k - i] == v[k];
      }
    }
  }

  lemma ShiftSlice(v: string, x: string, y: string, i: nat, j: nat)
    requires v == x + "," + y && i <= j <= |y|
    ensures var n := |x| + 1;
      (Slice(v, n + i, n + j) <==> Slice(y, i, j)) && v[n + i..n + j] == y[i..j]
  {
    var n := |x| + 1;
    assert v[n..] == y && v[n - 1] == ',';
    assert v[n + i..n + j] == y[i..j];
    CommaFree(v, n + i, n + j);
    CommaFree(y, i, j);
  }

  lemma HeadSlice(v: string, x: string, y: string)
    requires v == x + "," + y && ',' !in x
    ensures Slice(v, 0, |x|) && v[0..|x|] == x
  {
    forall k | 0 <= k < |x| ensures v[k] != ',' {
      assert v[k] == x[k];
    }
  }

  lemma {:induction false} SliceOf(items: seq<string>, m: nat) returns (i: nat, j: nat)
    requires m < |items| && forall k :: 0 <= k < |items| ==> ',' !in items[k]
    ensures Slice(JoinCommas(items), i, j) && JoinCommas(items)[i..j] == items[m]
  {
    var v, x := JoinCommas(items), items[0];
    if |items| == 1 {
      i, j := 0, |x|;
      assert v[0..|x|] == x;
    } else if m == 0 {
      i, j := 0, |x|;
      HeadSlice(v, x, JoinCommas(items[1..]));
    } else {
      var p, q := SliceOf(items[1..], m - 1);
      ShiftSlice(v, x, JoinCommas(items[1..]), p, q);
      i, j := |x| + 1 + p, |x| + 1 + q;
    }
  }

  lemma StartsFirst(v: string, x: string, y: string, i: nat, j: nat)
    requires v == x + "," + y && ',' !in x && Slice(v, i, j) && i <= |x|
    ensures v[i..j] == x
  {
    assert v[|x|] == ',';
    forall k | 0 <= k < |x| ensures v[k] != ',' {
      assert v[k] == x[k];
    }
  }

  lemma {:induction false} ItemAt(items: seq<string>, i: nat, j: nat) returns (m: nat)
    requires items != [] && forall k :: 0 <= k < |items| ==> ',' !in items[k]
    requires Slice(JoinCommas(items), i, j)
    ensures m < |items| && JoinCommas(items)[i..j] == items[m]
  {
    var v, x := JoinCommas(items), items[0];
    if |items| == 1 {
      m := 0;
      assert v[i..j] == x;
    } else if i <= |x| {
      m := 0;
      StartsFirst(v, x, JoinCommas(items[1..]), i, j);
    } else {
      ShiftSlice(v, x, JoinCommas(items[1..]), i - |x| - 1, j - |x| - 1);
      m := ItemAt(items[1..], i - |x| - 1, j - |x| - 1);
      m := m + 1;
    }
  }

  // ---- Lists of ranges ----------------------------------------------------------------------

  /** One of the items, blank ones aside, and each of them is an address range. */
  ghost predicate Ranges(items: seq<string>) {
    && (exists m :: 0 <= m < |items| && Trim(items[m], JsSpace) != "")
    && (forall m :: 0 <= m < |items| && Trim(items[m], JsSpace) != "" ==> Cidr(Trim(items[m], JsSpace)))
  }

  lemma RangesListed(items: seq<string>)
    requires forall k :: 0 <= k < |items| ==> ',' !in items[k]
    requires Ranges(items)
    ensures CidrList(JoinCommas(items))
  {
    var v := JoinCommas(items);
    var m :| 0 <= m < |items| && Trim(items[m], JsSpace) != "";
    var p, q := SliceOf(items, m);
    assert Item(v, p, q);
    forall i, j | 0 <= i <= j <= |v| && Item(v, i, j) ensures Cidr(Trim(v[i..j], JsSpace)) {
      var n := ItemAt(items, i, j);
    }
  }

  lemma ListedAreRanges(items: seq<string>)
    requires items != [] && forall k :: 0 <= k < |items| ==> ',' !in items[k]
    requires CidrList(JoinCommas(items))
    ensures Ranges(items)
  {
    var v := JoinCommas(items);
    var i, j :| 0 <= i <= j <= |v| && Item(v, i, j);
    var n := ItemAt(items, i, j);
    forall m | 0 <= m < |items| && Trim(items[m], JsSpace) != "" ensures Cidr(Trim(items[m], JsSpace)) {
      var p, q := SliceOf(items, m);
      assert Item(v, p, q);
    }
  }

  /** A range of the operator's own address, with a mask of one or two digits. */
  ghost predicate OwnRange(v: string) {
    exists mask :: v == "${TP_USER_IP_ADDRESS}/" + mask && 1 <= |mask| <= 2 && Decimals.AllDigits(mask)
  }

  lemma OwnRangeIff(v: string)
    ensures OwnAddressRange(v) <==> OwnRange(v)
  {
    if OwnAddressRange(v) {
      assert v == v[..|OWN_ADDRESS|] + v[|OWN_ADDRESS|..];
    }
    if OwnRange(v) {
      var mask :| v == "${TP_USER_IP_ADDRESS}/" + mask && 1 <= |mask| <= 2 && Decimals.AllDigits(mask);
      MaskMakesRange(v, OWN_ADDRESS, mask);
    }
  }

  lemma MaskMakesRange(v: string, address: string, mask: string)
    requires v == address + mask && address == OWN_ADDRESS && 1 <= |mask| <= 2 && Decimals.AllDigits(mask)
    ensures OwnAddressRange(v)
  {
    assert v[|address|..] == mask;
  }

  /** An allowlist counts as filled in exactly when it does not hold the template's
      marker, in any letter case, and is a range of the operator's own address,
      "0.0.0.0/0", or a list of address ranges. */
  lemma AllowlistUnfilledIff(value: string, v: string, items: seq<string>)
    requires items != [] && forall k :: 0 <= k < |items| ==> ',' !in items[k]
    requires v == Trim(value, JsSpace) && v == JoinCommas(items)
    ensures !AllowlistPlaceholder(value) <==>
      && v != "" && !Holds(LowerText(v), "your_ip_address_here") && (OwnRange(v) || v == "0.0.0.0/0" || Ranges(items))
  {
    HasIsLower(v, "your_ip_address_here");
    OwnRangeIff(v);
    if Ranges(items) {
      RangesListed(items);
    } else if CidrList(v) {
      ListedAreRanges(items);
    }
  }
}
