/** PrimitiveIdTransferable: the drag-and-drop payload carrying a list of primitive ids,
    offered either as the list itself or as text "type/id,type/id,...". The text form is
    specified by Join, Segment and Decimal below; Parse is its inverse. */
module Transfer {
  import opened Osm

  /** The data flavours a drop target may ask for: the two supported ones and any other. */
  datatype DataFlavor = PrimitiveIdListFlavor | StringFlavor | Other(mimeType: string)

  /** SUPPORTED_FLAVORS, in the order getTransferDataFlavors replies them. */
  const SupportedFlavors: seq<DataFlavor> := [PrimitiveIdListFlavor, StringFlavor]

  /** What getTransferData replies: the id list, or its text form. */
  datatype TransferData = IdList(ids: seq<PrimId>) | Text(text: string)

  /** getTransferData either replies data or throws UnsupportedFlavorException. */
  datatype Transfer = Data(data: TransferData) | UnsupportedFlavor(flavor: DataFlavor)

  // ---------------------------------------------------------------------------------
  // Decimal numerals (Long.toString) and their inverse
  // ---------------------------------------------------------------------------------

  predicate IsDigit(c: char) { '0' <= c <= '9' }

  function DigitChar(d: nat): (c: char)
    requires d < 10
    ensures IsDigit(c) && c as int - '0' as int == d
  {
    ('0' as int + d) as char
  }

  /** The decimal numeral of n without leading zeros. */
  function NatToString(n: nat): (s: string)
    ensures |s| > 0 && forall i :: 0 <= i < |s| ==> IsDigit(s[i])
    ensures |s| > 1 ==> s[0] != '0'
  {
    if n < 10 then [DigitChar(n)] else NatToString(n / 10) + [DigitChar(n % 10)]
  }

  /** Long.toString: a '-' precedes the numeral of a negative number. */
  function Decimal(n: int): (s: string)
    ensures |s| > 0 && ',' !in s && '/' !in s
    ensures s[0] == '-' <==> n < 0
    ensures IsDigit(s[|s| - 1])
  {
    if n < 0 then "-" + NatToString(-n) else NatToString(n)
  }

  /** The value of a non-empty string of digits. */
  function ParseNat(s: string): Option<nat>
  {
    if |s| == 0 || !IsDigit(s[|s| - 1]) then None
    else if |s| == 1 then Some(s[0] as int - '0' as int)
    else match ParseNat(s[..|s| - 1])
      case None => None
      case Some(v) => Some(10 * v + (s[|s| - 1] as int - '0' as int))
  }

  function ParseDecimal(s: string): Option<int>
  {
    if |s| > 0 && s[0] == '-' then
      match ParseNat(s[1..])
      case None => None
      case Some(v) => Some(-(v as int))
    else match ParseNat(s)
      case None => None
      case Some(v) => Some(v)
  }

  lemma {:induction false} ParseNatToString(n: nat)
    ensures ParseNat(NatToString(n)) == Some(n)
  {
    if n >= 10 {
      var s := NatToString(n);
      assert s[..|s| - 1] == NatToString(n / 10);
      ParseNatToString(n / 10);
    }
  }

  /** The numeral of every id reads back as that id. */
  lemma ParseDecimalRoundTrip(n: int)
    ensures ParseDecimal(Decimal(n)) == Some(n)
  {
    if n < 0 {
      var t := NatToString(-n);
      assert Decimal(n) == "-" + t && ("-" + t)[1..] == t;
      ParseNatToString(-n);
      assert ParseNat(t) == Some(-n);
    } else {
      var t := NatToString(n);
      assert Decimal(n) == t && IsDigit(t[0]);
      ParseNatToString(n);
    }
  }

  // ---------------------------------------------------------------------------------
  // Joining and splitting on a separator
  // ---------------------------------------------------------------------------------

  /** The parts separated by sep (no leading or trailing separator). */
  function Join(parts: seq<string>, sep: char): string
  {
    if |parts| == 0 then ""
    else if |parts| == 1 then parts[0]
    else parts[0] + [sep] + Join(parts[1..], sep)
  }

  /** The pieces of s between occurrences of sep; always at least one piece. */
  function Split(s: string, sep: char): (r: seq<string>)
    ensures |r| > 0
  {
    if |s| == 0 then [""]
    else if s[0] == sep then [""] + Split(s[1..], sep)
    else
      var rest := Split(s[1..], sep);
      [[s[0]] + rest[0]] + rest[1..]
  }

  function Count(s: string, c: char): nat
  {
    if |s| == 0 then 0 else (if s[0] == c then 1 else 0) + Count(s[1..], c)
  }

  lemma {:induction false} JoinAppend(parts: seq<string>, x: string, sep: char)
    requires |parts| > 0
    ensures Join(parts + [x], sep) == Join(parts, sep) + [sep] + x
  {
    if |parts| > 1 {
      assert (parts + [x])[1..] == parts[1..] + [x];
      JoinAppend(parts[1..], x, sep);
    }
  }

  lemma {:induction false} SplitPiece(a: string, b: string, sep: char)
    requires sep !in a
    ensures Split(a + [sep] + b, sep) == [a] + Split(b, sep)
  {
    if |a| > 0 {
      assert (a + [sep] + b)[1..] == a[1..] + [sep] + b;
      SplitPiece(a[1..], b, sep);
      assert [a[0]] + a[1..] == a;
    } else {
      assert a + [sep] + b == [sep] + b;
    }
  }

  lemma {:induction false} SplitWhole(a: string, sep: char)
    requires sep !in a
    ensures Split(a, sep) == [a]
  {
    if |a| > 0 {
      SplitWhole(a[1..], sep);
      assert [a[0]] + a[1..] == a;
    }
  }

  /** Splitting undoes joining when no part contains the separator. */
  lemma {:induction false} SplitJoin(parts: seq<string>, sep: char)
    requires |parts| > 0
    requires forall i :: 0 <= i < |parts| ==> sep !in parts[i]
    ensures Split(Join(parts, sep), sep) == parts
  {
    if |parts| == 1 {
      SplitWhole(parts[0], sep);
    } else {
      SplitPiece(parts[0], Join(parts[1..], sep), sep);
      SplitJoin(parts[1..], sep);
    }
  }

  lemma {:induction false} CountConcat(a: string, b: string, c: char)
    ensures Count(a + b, c) == Count(a, c) + Count(b, c)
  {
    if |a| > 0 {
      assert (a + b)[1..] == a[1..] + b;
      CountConcat(a[1..], b, c);
    } else {
      assert a + b == b;
    }
  }

  lemma {:induction false} CountAbsent(a: string, c: char)
    requires c !in a
    ensures Count(a, c) == 0
  {
    if |a| > 0 {
      CountAbsent(a[1..], c);
    }
  }

  /** Joining n parts without separators puts exactly n - 1 separators in the text. */
  lemma {:induction false} JoinCount(parts: seq<string>, sep: char)
    requires |parts| > 0
    requires forall i :: 0 <= i < |parts| ==> sep !in parts[i]
    ensures Count(Join(parts, sep), sep) == |parts| - 1
  {
    if |parts| == 1 {
      CountAbsent(parts[0], sep);
    } else {
      JoinCount(parts[1..], sep);
      CountConcat(parts[0] + [sep], Join(parts[1..], sep), sep);
      CountConcat(parts[0], [sep], sep);
      CountAbsent(parts[0], sep);
    }
  }

  /** The text of non-empty parts starts with the first part and ends with the last. */
  lemma {:induction false} JoinEnds(parts: seq<string>, sep: char)
    requires |parts| > 0
    requires forall i :: 0 <= i < |parts| ==> |parts[i]| > 0
    ensures var s := Join(parts, sep);
            |s| > 0 && s[0] == parts[0][0] && s[|s| - 1] == parts[|parts| - 1][|parts[|parts| - 1]| - 1]
  {
    if |parts| > 1 {
      JoinEnds(parts[1..], sep);
    }
  }

  // ---------------------------------------------------------------------------------
  // The text form of an id list
  // ---------------------------------------------------------------------------------

  /** One id as text: its API name, '/', and its unique id in decimal. */
  function Segment(id: PrimId): (s: string)
    ensures |s| > 0 && ',' !in s
  {
    ApiName(id.kind) + "/" + Decimal(id.id)
  }

  /** The list of f applied to each element, in order. */
  function Map<A, B>(f: A -> B, xs: seq<A>): seq<B>
  {
    seq(|xs|, i requires 0 <= i < |xs| => f(xs[i]))
  }

  lemma MapTail<A, B>(f: A -> B, xs: seq<A>)
    requires |xs| > 0
    ensures Map(f, xs)[1..] == Map(f, xs[1..])
  {
    var a, b := Map(f, xs)[1..], Map(f, xs[1..]);
    forall k | 0 <= k < |a| ensures a[k] == b[k] {
      assert xs[1..][k] == xs[k + 1];
    }
  }

  lemma MapSnoc<A, B>(f: A -> B, xs: seq<A>, x: A)
    ensures Map(f, xs + [x]) == Map(f, xs) + [f(x)]
  {
    var a, b := Map(f, xs + [x]), Map(f, xs) + [f(x)];
    forall k | 0 <= k < |a| ensures a[k] == b[k] {
      if k < |xs| {
        assert (xs + [x])[k] == xs[k];
      }
    }
  }

  function Segments(ids: seq<PrimId>): seq<string>
  {
    Map(Segment, ids)
  }

  /** The i-th segment is the text of the i-th id; none contains a comma. */
  lemma SegmentsAt(ids: seq<PrimId>)
    ensures |Segments(ids)| == |ids|
    ensures forall i :: 0 <= i < |ids| ==> Segments(ids)[i] == Segment(ids[i])
    ensures forall i :: 0 <= i < |ids| ==> |Segments(ids)[i]| > 0 && ',' !in Segments(ids)[i]
  {
  }

  /** ParseSegments of a non-empty list reads its head and then its tail. */
  lemma ParseSegmentsCons(segs: seq<string>, id: PrimId, rest: seq<PrimId>)
    requires |segs| > 0 && ParseSegment(segs[0]) == Some(id) && ParseSegments(segs[1..]) == Some(rest)
    ensures ParseSegments(segs) == Some([id] + rest)
  {
  }

  /** The string getAsString replies for a list of ids. */
  function AsString(ids: seq<PrimId>): string
  {
    Join(Segments(ids), ',')
  }

  function TypeOfApiName(name: string): Option<PrimType>
  {
    if name == "node" then Some(Node)
    else if name == "way" then Some(Way)
    else if name == "relation" then Some(Relation)
    else None
  }

  function ParseSegment(seg: string): Option<PrimId>
  {
    var parts := Split(seg, '/');
    if |parts| != 2 then None
    else match (TypeOfApiName(parts[0]), ParseDecimal(parts[1]))
      case (Some(t), Some(n)) => Some(PrimId(t, n))
      case _ => None
  }

  function ParseSegments(segs: seq<string>): Option<seq<PrimId>>
  {
    if |segs| == 0 then Some([])
    else match ParseSegment(segs[0])
      case None => None
      case Some(id) =>
        match ParseSegments(segs[1..])
        case None => None
        case Some(rest) => Some([id] + rest)
  }

  /** Reads a text form back into an id list (the empty text is the empty list). */
  function Parse(s: string): Option<seq<PrimId>>
  {
    if s == "" then Some([]) else ParseSegments(Split(s, ','))
  }

  lemma SegmentRoundTrip(id: PrimId)
    ensures ParseSegment(Segment(id)) == Some(id)
  {
    var name, num := ApiName(id.kind), Decimal(id.id);
    assert Segment(id) == name + ['/'] + num;
    SplitPiece(name, num, '/');
    SplitWhole(num, '/');
    ParseDecimalRoundTrip(id.id);
  }

  lemma {:induction false} SegmentsRoundTrip(ids: seq<PrimId>)
    ensures ParseSegments(Segments(ids)) == Some(ids)
  {
    if |ids| > 0 {
      var segs := Segments(ids);
      MapTail(Segment, ids);
      assert segs[0] == Segment(ids[0]) && segs[1..] == Segments(ids[1..]);
      SegmentRoundTrip(ids[0]);
      SegmentsRoundTrip(ids[1..]);
      ParseSegmentsCons(segs, ids[0], ids[1..]);
      assert [ids[0]] + ids[1..] == ids;
    }
  }

  /** The text of the first i + 1 ids extends the text of the first i by one segment. */
  lemma AsStringPrefix(ids: seq<PrimId>, i: nat)
    requires i < |ids|
    ensures AsString(ids[..i + 1]) == if i == 0 then Segment(ids[0]) else AsString(ids[..i]) + "," + Segment(ids[i])
  {
    assert ids[..i + 1] == ids[..i] + [ids[i]];
    MapSnoc(Segment, ids[..i], ids[i]);
    if i > 0 {
      JoinAppend(Segments(ids[..i]), Segment(ids[i]), ',');
    }
  }

  /** The text form determines the id list: reading it back gives the ids, in order. */
  lemma AsStringRoundTrip(ids: seq<PrimId>)
    ensures Parse(AsString(ids)) == Some(ids)
  {
    if |ids| > 0 {
      SegmentsAt(ids);
      JoinEnds(Segments(ids), ',');
      SplitJoin(Segments(ids), ',');
      SegmentsRoundTrip(ids);
    }
  }

  /** The shape of the text: empty for no ids; otherwise the i-th comma-separated piece
      is the i-th segment, there are n - 1 commas, and the text neither starts nor ends
      with a comma (it starts with the first API name and ends with a digit). */
  lemma AsStringShape(ids: seq<PrimId>)
    ensures |ids| == 0 ==> AsString(ids) == ""
    ensures |ids| > 0 ==>
              var s := AsString(ids);
              && Split(s, ',') == Segments(ids)
              && Count(s, ',') == |ids| - 1
              && |s| > 0 && s[0] == ApiName(ids[0].kind)[0] && IsDigit(s[|s| - 1])
  {
    if |ids| > 0 {
      var segs := Segments(ids);
      SegmentsAt(ids);
      SplitJoin(segs, ',');
      JoinCount(segs, ',');
      JoinEnds(segs, ',');
      var last := Segment(ids[|ids| - 1]);
      assert last[|last| - 1] == Decimal(ids[|ids| - 1].id)[|Decimal(ids[|ids| - 1].id)| - 1];
    }
  }

  // ---------------------------------------------------------------------------------
  // The transferable
  // ---------------------------------------------------------------------------------

  /** isDataFlavorSupported: a search of SUPPORTED_FLAVORS; true exactly for the two
      supported flavours. */
  function IsDataFlavorSupported(f: DataFlavor): (r: bool)
    ensures r <==> !f.Other?
  {
    f in SupportedFlavors
  }

  class PrimitiveIdTransferable {
    /** The transferred ids, copied from the list given at construction. */
    var ids: seq<PrimId>

    /** Copies (unique id, type) of every id of the list, in order; a null list gives the
        empty list. */
    constructor (source: Option<seq<PrimId>>)
      ensures source.None? ==> ids == []
      ensures source.Some? ==> |ids| == |source.value|
      ensures source.Some? ==> forall i :: 0 <= i < |ids| ==> ids[i].id == source.value[i].id && ids[i].kind == source.value[i].kind
    {
      var copied: seq<PrimId> := [];
      if source.Some? {
        var src := source.value;
        var i := 0;
        while i < |src|
          invariant 0 <= i <= |src|
          invariant |copied| == i
          invariant forall j :: 0 <= j < i ==> copied[j].id == src[j].id && copied[j].kind == src[j].kind
        {
          copied := copied + [PrimId(src[i].kind, src[i].id)];
          i := i + 1;
        }
      }
      ids := copied;
    }

    /** getPrimitiveIds. */
    function GetPrimitiveIds(): seq<PrimId>
      reads this
    {
      ids
    }

    /** getAsString: appends "api name/id" for every id, with a ',' before every segment
        but the first (the buffer is non-empty exactly after the first segment). */
    method GetAsString() returns (s: string)
      ensures s == AsString(ids)
    {
      var sb: string := "";
      var i := 0;
      while i < |ids|
        invariant 0 <= i <= |ids|
        invariant sb == AsString(ids[..i])
        invariant |sb| > 0 <==> i > 0
      {
        if |sb| > 0 {
          sb := sb + ",";
        }
        sb := sb + Segment(ids[i]);
        AsStringPrefix(ids, i);
        i := i + 1;
      }
      assert ids[..i] == ids;
      s := sb;
    }

    /** getTransferData: the id list for the list flavour, the text for the string flavour,
        UnsupportedFlavorException for any other. */
    function GetTransferData(flavor: DataFlavor): (r: Transfer)
      reads this
      ensures r.Data? <==> IsDataFlavorSupported(flavor)
      ensures flavor == PrimitiveIdListFlavor ==> r == Data(IdList(GetPrimitiveIds()))
      ensures flavor == StringFlavor ==> r == Data(Text(AsString(ids))) && Parse(r.data.text) == Some(ids)
      ensures r.UnsupportedFlavor? ==> r.flavor == flavor
    {
      AsStringRoundTrip(ids);
      if flavor == PrimitiveIdListFlavor then Data(IdList(GetPrimitiveIds()))
      else if flavor == StringFlavor then Data(Text(AsString(ids)))
      else UnsupportedFlavor(flavor)
    }

    /** getTransferDataFlavors. */
    function GetTransferDataFlavors(): (r: seq<DataFlavor>)
      ensures forall f :: f in r <==> IsDataFlavorSupported(f)
    {
      SupportedFlavors
    }
  }
}
