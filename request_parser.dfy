/**
 * The request parser shared by the endpoints: typed query parameters
 * (string, list, integer, bounding box) that never fail outright but append
 * messages to an error list the caller inspects once at the end.
 */
module RequestParsing {
  import opened Wrappers
  import opened JavaText
  import Handler

  /**
   * What one parameter helper returns (`None` is Java's null) together with
   * the messages it appends, in order.
   */
  datatype Parsed<T> = Parsed(value: Option<T>, errors: seq<string>)

  /** The four parsed extents, in the order the envelope is built from them. */
  datatype Envelope = Envelope(minx: real, maxx: real, miny: real, maxy: real)

  const BBoxCountMessage := "BBOX invalid, must have 4 values"
  const BBoxNumberMessage := "BBOX invalid, bad number"
  const MinxMessage := "Invalid bbox, minx > maxx"
  const MinyMessage := "Invalid bbox, miny > maxy"

  function MissingMessage(key: string): string {
    "Missing required parameter : " + key
  }

  function InvalidIntegerMessage(key: string, spec: string): string {
    "Invalid " + key + " value : " + spec
  }

  /** The error list after appending `added`: it stays null until a first message arrives. */
  function Appended(errors: Option<seq<string>>, added: seq<string>): (r: Option<seq<string>>)
    ensures r.Some? <==> errors.Some? || |added| > 0
    ensures r.Some? ==> r.value == errors.GetOr([]) + added
  {
    if |added| == 0 then errors else Some(errors.GetOr([]) + added)
  }

  lemma AppendedTwice(errors: Option<seq<string>>, first: seq<string>, second: seq<string>)
    ensures Appended(Appended(errors, first), second) == Appended(errors, first + second)
  {
    if |first| == 0 {
      assert first + second == second;
    } else if |second| == 0 {
      assert first + second == first;
    } else {
      assert errors.GetOr([]) + first + second == errors.GetOr([]) + (first + second);
    }
  }

  // ---------------------------------------------------------------------------
  // What each helper returns and appends
  // ---------------------------------------------------------------------------

  /** `getParameter(key, req)`: the raw value; a required but absent key appends one message. */
  function ParameterOutcome(parms: map<string, string>, key: string, required: bool): Parsed<string> {
    if key in parms then Parsed(Some(parms[key]), [])
    else Parsed(None, if required then [MissingMessage(key)] else [])
  }

  /** `getList`: nothing for an absent or empty value, otherwise `split(",")`. */
  function ListOutcome(parms: map<string, string>, key: string, required: bool): Parsed<seq<string>> {
    var p := ParameterOutcome(parms, key, required);
    if p.value.None? || |p.value.value| == 0 then Parsed(None, p.errors)
    else Parsed(Some(Split(p.value.value, ',')), p.errors)
  }

  /** Indices of the x and y minima among the four components. */
  function AxisIndices(flippedAxis: bool): (indices: (nat, nat))
    ensures indices.0 + 2 < 4 && indices.1 + 2 < 4
  {
    if flippedAxis then (1, 0) else (0, 1)
  }

  /**
   * `getBBox(flippedAxis)`: the four components of `bbox`, read with the
   * axes swapped when asked; inverted extents append a message each but the
   * envelope is still built.
   */
  function BBoxOutcome(parms: map<string, string>, flippedAxis: bool, parseDouble: string -> Option<real>): Parsed<Envelope> {
    var list := ListOutcome(parms, "bbox", true);
    if list.value.None? then Parsed(None, list.errors)
    else
      var c := list.value.value;
      if |c| != 4 then Parsed(None, [BBoxCountMessage])
      else
        var (xi, yi) := AxisIndices(flippedAxis);
        var minx, maxx := parseDouble(c[xi]), parseDouble(c[xi + 2]);
        var miny, maxy := parseDouble(c[yi]), parseDouble(c[yi + 2]);
        if minx.None? || maxx.None? || miny.None? || maxy.None? then Parsed(None, [BBoxNumberMessage])
        else
          Parsed(Some(Envelope(minx.value, maxx.value, miny.value, maxy.value)),
                 (if minx.value > maxx.value then [MinxMessage] else [])
                 + (if miny.value > maxy.value then [MinyMessage] else []))
  }

  /** `getInteger(key, b)`: the 32-bit value, or one message naming the key and the raw text. */
  function IntegerOutcome(parms: map<string, string>, key: string, required: bool): Parsed<int> {
    var p := ParameterOutcome(parms, key, required);
    if p.value.None? then Parsed(None, p.errors)
    else match ParseInt(p.value.value)
      case None => Parsed(None, [InvalidIntegerMessage(key, p.value.value)])
      case Some(n) => Parsed(Some(n), [])
  }

  // ---------------------------------------------------------------------------
  // The parser object
  // ---------------------------------------------------------------------------

  class RequestParser {
    /** The collected messages; `None` until the first one. */
    var errors: Option<seq<string>>
    const parms: map<string, string>

    constructor (request: Handler.Request)
      ensures parms == request.parms && errors == None
    {
      parms := request.parms;
      errors := None;
    }

    /** `addError`: creates the list on first use and appends at its end. */
    method AddError(message: string)
      modifies this
      ensures errors == Some(old(errors).GetOr([]) + [message])
      ensures errors == Appended(old(errors), [message])
    {
      if errors.None? {
        errors := Some([]);
      }
      errors := Some(errors.value + [message]);
    }

    /** `getParameter(key, defaultValue)`. */
    function GetParameterOr(key: string, defaultValue: string): (r: string)
      ensures key in parms ==> r == parms[key]
      ensures key !in parms ==> r == defaultValue
    {
      if key in parms then parms[key] else defaultValue
    }

    method MissingParameter(key: string)
      modifies this
      ensures errors == Appended(old(errors), [MissingMessage(key)])
    {
      AddError(MissingMessage(key));
    }

    method GetParameter(key: string, required: bool) returns (val: Option<string>)
      modifies this
      ensures val == ParameterOutcome(parms, key, required).value
      ensures errors == Appended(old(errors), ParameterOutcome(parms, key, required).errors)
    {
      val := if key in parms then Some(parms[key]) else None;
      if required && val.None? {
        MissingParameter(key);
      }
    }

    method GetList(key: string, required: bool) returns (list: Option<seq<string>>)
      modifies this
      ensures list == ListOutcome(parms, key, required).value
      ensures errors == Appended(old(errors), ListOutcome(parms, key, required).errors)
    {
      var val := GetParameter(key, required);
      list := if val.None? then None else if |val.value| == 0 then None else Some(Split(val.value, ','));
    }

    method GetBBox(flippedAxis: bool, parseDouble: string -> Option<real>) returns (e: Option<Envelope>)
      modifies this
      ensures e == BBoxOutcome(parms, flippedAxis, parseDouble).value
      ensures errors == Appended(old(errors), BBoxOutcome(parms, flippedAxis, parseDouble).errors)
    {
      var bbox := GetList("bbox", true);
      e := None;
      if bbox.Some? {
        if |bbox.value| != 4 {
          AddError(BBoxCountMessage);
        } else {
          var xi, yi := 0, 1;
          if flippedAxis {
            xi, yi := 1, 0;
          }
          var minx := parseDouble(bbox.value[xi]);
          var maxx := parseDouble(bbox.value[xi + 2]);
          var miny := parseDouble(bbox.value[yi]);
          var maxy := parseDouble(bbox.value[yi + 2]);
          if minx.None? || maxx.None? || miny.None? || maxy.None? {
            AddError(BBoxNumberMessage);
            return;
          }
          ghost var before := errors;
          if minx.value > maxx.value {
            AddError(MinxMessage);
          }
          ghost var middle := errors;
          if miny.value > maxy.value {
            AddError(MinyMessage);
          }
          AppendedTwice(before, if minx.value > maxx.value then [MinxMessage] else [],
                        if miny.value > maxy.value then [MinyMessage] else []);
          e := Some(Envelope(minx.value, maxx.value, miny.value, maxy.value));
        }
      }
    }

    /** `getBBox()`: the axes in their usual order. */
    method GetDefaultBBox(parseDouble: string -> Option<real>) returns (e: Option<Envelope>)
      modifies this
      ensures e == BBoxOutcome(parms, false, parseDouble).value
      ensures errors == Appended(old(errors), BBoxOutcome(parms, false, parseDouble).errors)
    {
      e := GetBBox(false, parseDouble);
    }

    method GetInteger(key: string, required: bool) returns (val: Option<int>)
      modifies this
      ensures val == IntegerOutcome(parms, key, required).value
      ensures errors == Appended(old(errors), IntegerOutcome(parms, key, required).errors)
    {
      var spec := GetParameter(key, required);
      val := None;
      if spec.Some? {
        var n := ParseInt(spec.value);
        if n.None? {
          AddError(InvalidIntegerMessage(key, spec.value));
        } else {
          val := n;
        }
      }
    }
  }

  // ---------------------------------------------------------------------------
  // Properties of the helpers
  // ---------------------------------------------------------------------------

  /** A required parameter that is absent yields null and exactly one message naming it. */
  lemma MissingRequiredParameter(parms: map<string, string>, key: string)
    requires key !in parms
    ensures ParameterOutcome(parms, key, true) == Parsed(None, [MissingMessage(key)])
    ensures ParameterOutcome(parms, key, false) == Parsed(None, [])
  {
  }

  /** A list is null for an absent or empty value, and otherwise the split value with no message. */
  lemma ListValues(parms: map<string, string>, key: string, required: bool)
    ensures key !in parms || parms[key] == "" ==> ListOutcome(parms, key, required).value == None
    ensures key in parms ==> ListOutcome(parms, key, required).errors == []
    ensures key in parms && parms[key] != "" ==>
              ListOutcome(parms, key, required).value == Some(Split(parms[key], ','))
  {
  }

  /**
   * The list's items joined back with commas give the value less the commas
   * that ended it: one item per comma-separated piece, trailing empty pieces
   * dropped.
   */
  lemma ListRejoins(parms: map<string, string>, key: string, required: bool)
    requires key in parms && parms[key] != ""
    ensures var items := ListOutcome(parms, key, required).value.value;
            items != [] ==> parms[key] == Join(items, ',') + seq(Count(parms[key], ',') + 1 - |items|, _ => ',')
  {
    var s := parms[key];
    var items := Split(s, ',');
    if ',' !in s {
      CountAbsent(s, ',');
      assert s == Join(items, ',') + seq(0, _ => ',');
    } else if items != [] {
      var all := SplitAll(s, ',');
      JoinSplitAll(s, ',');
      var n := |all| - |items|;
      JoinTrailingEmpty(items, n);
      assert all == items + seq(n, _ => "");
    }
  }

  lemma {:induction false} CountAbsent(s: string, c: char)
    requires c !in s
    ensures Count(s, c) == 0
  {
    if |s| > 0 {
      CountAbsent(s[1..], c);
    }
  }

  lemma {:induction false} JoinTrailingEmpty(items: seq<string>, n: nat)
    requires |items| > 0
    ensures Join(items + seq(n, _ => ""), ',') == Join(items, ',') + seq(n, _ => ',')
  {
    if |items| > 1 {
      JoinTrailingEmpty(items[1..], n);
      assert (items + seq(n, _ => ""))[1..] == items[1..] + seq(n, _ => "");
    } else if n > 0 {
      JoinEmpties(n - 1);
      assert items + seq(n, _ => "") == [items[0]] + seq(n - 1, _ => "") + [""] by {
        assert seq(n, _ => "") == seq(n - 1, _ => "") + [""];
      }
      assert (items + seq(n, _ => ""))[1..] == seq(n, _ => "");
      assert seq(n, _ => ',') == [','] + seq(n - 1, _ => ',');
    }
  }

  lemma {:induction false} JoinEmpties(n: nat)
    ensures Join(seq(n + 1, _ => ""), ',') == seq(n, _ => ',')
  {
    if n > 0 {
      JoinEmpties(n - 1);
      assert seq(n + 1, _ => "")[1..] == seq(n, _ => "");
      assert seq(n, _ => ',') == [','] + seq(n - 1, _ => ',');
    }
  }

  /** A missing bbox yields null and one missing-parameter message; an empty one yields null silently. */
  lemma BBoxAbsentOrEmpty(parms: map<string, string>, flippedAxis: bool, parseDouble: string -> Option<real>)
    ensures "bbox" !in parms ==>
              BBoxOutcome(parms, flippedAxis, parseDouble) == Parsed(None, [MissingMessage("bbox")])
    ensures "bbox" in parms && parms["bbox"] == "" ==>
              BBoxOutcome(parms, flippedAxis, parseDouble) == Parsed(None, [])
  {
  }

  /** Any component count other than four yields null and exactly one count message. */
  lemma BBoxWrongCount(parms: map<string, string>, flippedAxis: bool, parseDouble: string -> Option<real>)
    requires "bbox" in parms && parms["bbox"] != ""
    requires |Split(parms["bbox"], ',')| != 4
    ensures BBoxOutcome(parms, flippedAxis, parseDouble) == Parsed(None, [BBoxCountMessage])
  {
  }

  /** Any non-numeric component yields null and exactly one bad-number message, and no min/max message. */
  lemma BBoxBadNumber(parms: map<string, string>, flippedAxis: bool, parseDouble: string -> Option<real>, k: nat)
    requires "bbox" in parms && parms["bbox"] != ""
    requires |Split(parms["bbox"], ',')| == 4
    requires k < 4 && parseDouble(Split(parms["bbox"], ',')[k]).None?
    ensures BBoxOutcome(parms, flippedAxis, parseDouble) == Parsed(None, [BBoxNumberMessage])
  {
    var (xi, yi) := AxisIndices(flippedAxis);
    assert k in {xi, xi + 2, yi, yi + 2};
  }

  /**
   * With four numeric components the envelope is built from them, index 0
   * and 1 swapping roles under the flipped-axis flag, and inverted extents
   * each append their own message without stopping the envelope.
   */
  lemma BBoxComponents(parms: map<string, string>, flippedAxis: bool, parseDouble: string -> Option<real>)
    requires "bbox" in parms && parms["bbox"] != ""
    requires var c := Split(parms["bbox"], ',');
             |c| == 4 && forall k :: 0 <= k < 4 ==> parseDouble(c[k]).Some?
    ensures var c := Split(parms["bbox"], ',');
            var (v0, v1, v2, v3) := (parseDouble(c[0]).value, parseDouble(c[1]).value,
                                     parseDouble(c[2]).value, parseDouble(c[3]).value);
            var r := BBoxOutcome(parms, flippedAxis, parseDouble);
            && (!flippedAxis ==> r.value == Some(Envelope(v0, v2, v1, v3)))
            && (flippedAxis ==> r.value == Some(Envelope(v1, v3, v0, v2)))
            && r.errors == (if r.value.value.minx > r.value.value.maxx then [MinxMessage] else [])
                           + (if r.value.value.miny > r.value.value.maxy then [MinyMessage] else [])
  {
  }

  /** A well-ordered numeric box is accepted with no message at all. */
  lemma BBoxAccepted(parms: map<string, string>, flippedAxis: bool, parseDouble: string -> Option<real>)
    requires "bbox" in parms && parms["bbox"] != ""
    requires var c := Split(parms["bbox"], ',');
             var (xi, yi) := AxisIndices(flippedAxis);
             && |c| == 4 && (forall k :: 0 <= k < 4 ==> parseDouble(c[k]).Some?)
             && parseDouble(c[xi]).value <= parseDouble(c[xi + 2]).value
             && parseDouble(c[yi]).value <= parseDouble(c[yi + 2]).value
    ensures BBoxOutcome(parms, flippedAxis, parseDouble).value.Some?
    ensures BBoxOutcome(parms, flippedAxis, parseDouble).errors == []
  {
  }

  /** Flipped parsing of "10,20,30,40" makes index 1 the x minimum: x from 20 to 40, y from 10 to 30. */
  lemma FlippedBBoxExample(parseDouble: string -> Option<real>)
    requires parseDouble("10") == Some(10.0) && parseDouble("20") == Some(20.0)
    requires parseDouble("30") == Some(30.0) && parseDouble("40") == Some(40.0)
    ensures BBoxOutcome(map["bbox" := "10,20,30,40"], true, parseDouble)
            == Parsed(Some(Envelope(20.0, 40.0, 10.0, 30.0)), [])
  {
    FlippedSplit();
  }

  lemma FlippedSplit()
    ensures Split("10,20,30,40", ',') == ["10", "20", "30", "40"]
  {
    var pieces := ["10", "20", "30", "40"];
    SplitExample("10,20,30,40", pieces);
    assert "10,20,30,40"[2] == ',';
    assert StripTrailingEmpty(pieces) == pieces;
  }

  /** Trailing commas are dropped by the split, so "1,2,3,4," still has four components. */
  lemma TrailingCommaBBoxExample(parseDouble: string -> Option<real>)
    requires parseDouble("1") == Some(1.0) && parseDouble("2") == Some(2.0)
    requires parseDouble("3") == Some(3.0) && parseDouble("4") == Some(4.0)
    ensures BBoxOutcome(map["bbox" := "1,2,3,4,"], false, parseDouble)
            == Parsed(Some(Envelope(1.0, 3.0, 2.0, 4.0)), [])
  {
    TrailingCommaSplit();
  }

  lemma TrailingCommaSplit()
    ensures Split("1,2,3,4,", ',') == ["1", "2", "3", "4"]
  {
    var pieces := ["1", "2", "3", "4", ""];
    SplitExample("1,2,3,4,", pieces);
    assert "1,2,3,4,"[1] == ',';
    assert pieces[..4] == ["1", "2", "3", "4"];
    assert StripTrailingEmpty(pieces) == StripTrailingEmpty(pieces[..4]);
  }

  lemma SplitExample(s: string, pieces: seq<string>)
    requires |pieces| >= 1 && forall i :: 0 <= i < |pieces| ==> ',' !in pieces[i]
    requires s == Join(pieces, ',')
    ensures SplitAll(s, ',') == pieces
  {
    SplitAllJoin(pieces, ',');
  }

  /** A required integer that is absent yields null and the missing-parameter message. */
  lemma IntegerMissing(parms: map<string, string>, key: string)
    requires key !in parms
    ensures IntegerOutcome(parms, key, true) == Parsed(None, [MissingMessage(key)])
  {
  }

  /**
   * A present integer is either a 32-bit value with no message, or null with
   * exactly one message quoting the key and the raw text.
   */
  lemma IntegerPresent(parms: map<string, string>, key: string, required: bool)
    requires key in parms
    ensures var r := IntegerOutcome(parms, key, required);
            && (ParseInt(parms[key]).None? ==> r == Parsed(None, [InvalidIntegerMessage(key, parms[key])]))
            && (ParseInt(parms[key]).Some? ==> r.errors == [] && r.value == ParseInt(parms[key]))
            && (r.value.Some? ==> MinInt <= r.value.value <= MaxInt)
  {
  }

  /** Every 32-bit integer, printed in decimal, is read back with no message. */
  lemma IntegerRoundTrip(parms: map<string, string>, key: string, required: bool, n: int)
    requires MinInt <= n <= MaxInt
    requires key in parms && parms[key] == IntToString(n)
    ensures IntegerOutcome(parms, key, required) == Parsed(Some(n), [])
  {
    ParseIntToString(n);
  }

  /** `getInteger("width", true)` on "abc" appends "Invalid width value : abc"; on "256" it gives 256. */
  lemma WidthExamples()
    ensures IntegerOutcome(map["width" := "abc"], "width", true)
            == Parsed(None, ["Invalid width value : abc"])
    ensures IntegerOutcome(map["width" := "256"], "width", true) == Parsed(Some(256), [])
  {
    assert !IsDigit("abc"[0]);
    assert ParseInt("abc") == None;
    assert InvalidIntegerMessage("width", "abc") == "Invalid width value : abc";
    var s := "256";
    assert s[..2] == "25" && "25"[..1] == "2";
    assert DigitsValue("256") == 256;
  }
}
