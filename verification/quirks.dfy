/** Samsung client quirks: caption headers and bookmark save/restore.
    A client's quirk bit mask is split into the three flags read here. */
module Quirks {
  import opened Common

  datatype ClientFlags = ClientFlags(samsung: bool, bookmarkSec: bool, bookmarkMsec: bool)

  /** Seconds a restored bookmark is rewound. */
  const RewindSeconds: int := 10
  const MillisPerSecond: int := 1000
  /** The one parameter a saved bookmark is written with. */
  const BookmarkParam: string := "bookmarkpos"
  const CaptionHeaderName: string := "CaptionInfo.sec"

  /** Caption file extensions, tried in this order. */
  function CaptionExtensions(): seq<string>
  {
    [".srt", ".ssa", ".smi", ".sub"]
  }

  predicate BookmarksEnabled(flags: ClientFlags)
  {
    flags.bookmarkSec || flags.bookmarkMsec
  }

  /* ---------------------------------------------------------------- */
  /* Decimal text, as `std::to_string` writes and `std::stoi` reads it */
  /* ---------------------------------------------------------------- */

  function DigitChar(d: nat): char
    requires d < 10
  {
    "0123456789"[d]
  }

  function DigitValue(ch: char): nat
  {
    if '0' <= ch <= '9' then (ch - '0') as nat else 0
  }

  function NatToDecimal(n: nat): (r: string)
    ensures |r| > 0
    ensures forall i :: 0 <= i < |r| ==> '0' <= r[i] <= '9'
  {
    if n < 10 then [DigitChar(n)] else NatToDecimal(n / 10) + [DigitChar(n % 10)]
  }

  function IntToDecimal(n: int): string
  {
    if n < 0 then "-" + NatToDecimal(-n) else NatToDecimal(n)
  }

  function ParseNat(s: string): nat
  {
    if |s| == 0 then 0 else ParseNat(s[..|s| - 1]) * 10 + DigitValue(s[|s| - 1])
  }

  function ParseInt(s: string): int
  {
    if |s| > 0 && s[0] == '-' then -(ParseNat(s[1..]) as int) else ParseNat(s)
  }

  /** Reading one more digit: the value so far shifts one decimal place. */
  lemma ParseNatSnoc(s: string, d: nat)
    requires d < 10
    ensures ParseNat(s + [DigitChar(d)]) == ParseNat(s) * 10 + d
  {
    var t := s + [DigitChar(d)];
    assert t[..|t| - 1] == s;
  }

  lemma {:induction false} NatDecimalRoundTrip(n: nat)
    ensures ParseNat(NatToDecimal(n)) == n
    decreases n
  {
    if n < 10 {
      ParseNatSnoc([], n);
      assert [] + [DigitChar(n)] == NatToDecimal(n);
    } else {
      var q, d := n / 10, n % 10;
      assert NatToDecimal(n) == NatToDecimal(q) + [DigitChar(d)];
      NatDecimalRoundTrip(q);
      ParseNatSnoc(NatToDecimal(q), d);
      assert q * 10 + d == n;
    }
  }

  lemma ParseIntSigned(t: string)
    requires |t| > 0 && t[0] != '-'
    ensures ParseInt(t) == ParseNat(t)
    ensures ParseInt("-" + t) == -(ParseNat(t) as int)
  {
    var s := "-" + t;
    assert s[1..] == t;
  }

  /** Writing a number as decimal text and reading it back gives the number. */
  lemma DecimalRoundTrip(n: int)
    ensures ParseInt(IntToDecimal(n)) == n
  {
    var t := NatToDecimal(if n < 0 then -n else n);
    NatDecimalRoundTrip(if n < 0 then -n else n);
    ParseIntSigned(t);
  }

  /* ---------------------------------------------------------------- */
  /* Bookmarks                                                         */
  /* ---------------------------------------------------------------- */

  /** The position a restore reports: rewound by ten seconds when it is past
      ten seconds, then in milliseconds for clients that want them. */
  function RestoredPosition(flags: ClientFlags, bookmarkPos: int): int
  {
    var pos := if bookmarkPos > RewindSeconds then bookmarkPos - RewindSeconds else bookmarkPos;
    if flags.bookmarkMsec then pos * MillisPerSecond else pos
  }

  /** A restore never jumps past the saved position and never goes below
      zero for a non-negative one; it rewinds by exactly ten seconds past the
      first ten, stays put within them, and a millisecond client gets the
      second-resolution answer times 1000. */
  lemma RestoreRewindsTenSeconds(flags: ClientFlags, bookmarkPos: int)
    ensures var secs := RestoredPosition(flags.(bookmarkMsec := false), bookmarkPos);
      && (bookmarkPos > RewindSeconds ==> secs == bookmarkPos - RewindSeconds)
      && (bookmarkPos <= RewindSeconds ==> secs == bookmarkPos)
      && (0 <= bookmarkPos ==> 0 <= secs <= bookmarkPos)
      && RestoredPosition(flags.(bookmarkMsec := true), bookmarkPos) == secs * MillisPerSecond
  {
  }

  /** The fixed part of a `dcmInfo` value, up to the bookmark number. */
  function DcmInfoPrefix(title: string): string
  {
    "CREATIONDATE=0,FOLDER=" + title + ",BM="
  }

  /** `restoreSamsungBookMarkedPosition`: the `sec:dcmInfo` text appended to
      the result, or nothing for a client without a bookmark flag. A client
      reading the number after `BM=` gets the restored position back. */
  function RestoreBookmark(flags: ClientFlags, title: string, bookmarkPos: int): (r: Option<string>)
    ensures r.Some? <==> BookmarksEnabled(flags)
    ensures r.Some? ==> && StartsWith(r.value, DcmInfoPrefix(title))
                        && r.value[|DcmInfoPrefix(title)|..] == IntToDecimal(RestoredPosition(flags, bookmarkPos))
                        && ParseInt(r.value[|DcmInfoPrefix(title)|..]) == RestoredPosition(flags, bookmarkPos)
  {
    if !BookmarksEnabled(flags) then None
    else
      var digits := IntToDecimal(RestoredPosition(flags, bookmarkPos));
      DecimalRoundTrip(RestoredPosition(flags, bookmarkPos));
      assert (DcmInfoPrefix(title) + digits)[|DcmInfoPrefix(title)|..] == digits;
      Some(DcmInfoPrefix(title) + digits)
  }

  /** The object update a save asks for. */
  datatype ObjectUpdate = ObjectUpdate(objectId: int, params: map<string, string>)

  /** A save asks for an object update only for a client with a bookmark
      flag, and answers the request unless that update failed. */
  datatype SaveOutcome = SaveOutcome(update: Option<ObjectUpdate>, responseSet: bool)

  /** `saveSamsungBookMarkedPosition`: the reported `PosSecond`, divided
      (truncating, as C++ does) by 1000 for millisecond clients, becomes the
      object's bookmark position. `objectStored` says whether the store holds
      `objectId`: `updateObject` loads the object without catching the
      failure, so for a missing object the save leaves before the response. */
  function SaveBookmark(flags: ClientFlags, objectId: int, objectStored: bool, posSecond: int): (r: SaveOutcome)
    ensures r.responseSet <==> !BookmarksEnabled(flags) || objectStored
    ensures r.update.Some? <==> BookmarksEnabled(flags)
    ensures r.update.Some? ==> r.update.value.objectId == objectId && r.update.value.params.Keys == {BookmarkParam}
    ensures r.update.Some? ==>
      r.update.value.params[BookmarkParam] == IntToDecimal(TruncDiv(posSecond, if flags.bookmarkMsec then MillisPerSecond else 1))
    ensures r.update.Some? ==>
      ParseInt(r.update.value.params[BookmarkParam]) == TruncDiv(posSecond, if flags.bookmarkMsec then MillisPerSecond else 1)
  {
    if !BookmarksEnabled(flags) then SaveOutcome(None, true)
    else
      var divider := if flags.bookmarkMsec then MillisPerSecond else 1;
      DecimalRoundTrip(TruncDiv(posSecond, divider));
      SaveOutcome(Some(ObjectUpdate(objectId, map[BookmarkParam := IntToDecimal(TruncDiv(posSecond, divider))])), objectStored)
  }

  /** Save then restore for a millisecond client: a position of `s` seconds
      and `ms` milliseconds comes back as `s - 10` whole seconds, in
      milliseconds, once `s` is past the rewind. */
  lemma SaveThenRestoreMillis(flags: ClientFlags, objectId: int, objectStored: bool, s: nat, ms: nat, title: string)
    requires flags.bookmarkMsec
    requires ms < MillisPerSecond
    requires s > RewindSeconds
    ensures var saved := SaveBookmark(flags, objectId, objectStored, s * MillisPerSecond + ms);
      && saved.update.Some?
      && var stored := ParseInt(saved.update.value.params[BookmarkParam]);
      && stored == s
      && RestoredPosition(flags, stored) == (s - RewindSeconds) * MillisPerSecond
  {
    assert (s * MillisPerSecond + ms) / MillisPerSecond == s;
  }

  /* ---------------------------------------------------------------- */
  /* Caption info                                                      */
  /* ---------------------------------------------------------------- */

  /** The first extension `e` of `exts` for which `pathNoExt + e` is readable. */
  function FirstReadable(exts: seq<string>, pathNoExt: string, readable: string -> bool): (r: Option<string>)
  {
    if |exts| == 0 then None
    else if readable(pathNoExt + exts[0]) then Some(exts[0])
    else FirstReadable(exts[1..], pathNoExt, readable)
  }

  /** First-match search: the extension found is readable and every
      extension before it is not; nothing is found only when none is readable. */
  lemma {:induction false} FirstReadableIsFirst(exts: seq<string>, pathNoExt: string, readable: string -> bool)
    ensures var r := FirstReadable(exts, pathNoExt, readable);
      && (r.None? <==> forall i :: 0 <= i < |exts| ==> !readable(pathNoExt + exts[i]))
      && (r.Some? ==> exists k :: 0 <= k < |exts| && exts[k] == r.value && readable(pathNoExt + exts[k])
                                  && forall i :: 0 <= i < k ==> !readable(pathNoExt + exts[i]))
  {
    if |exts| > 0 {
      FirstReadableIsFirst(exts[1..], pathNoExt, readable);
      if !readable(pathNoExt + exts[0]) {
        var r := FirstReadable(exts[1..], pathNoExt, readable);
        if r.Some? {
          var k :| 0 <= k < |exts[1..]| && exts[1..][k] == r.value && readable(pathNoExt + exts[1..][k])
                   && forall i :: 0 <= i < k ==> !readable(pathNoExt + exts[1..][i]);
          assert exts[k + 1] == r.value;
          forall i | 0 <= i < k + 1
            ensures !readable(pathNoExt + exts[i])
          {
            if i > 0 {
              assert exts[i] == exts[1..][i - 1];
            }
          }
        } else {
          forall i | 0 <= i < |exts|
            ensures !readable(pathNoExt + exts[i])
          {
            if i > 0 {
              assert exts[i] == exts[1..][i - 1];
            }
          }
        }
      }
    }
  }

  /** Where a caption header points: the item's own subtitle URL, or the
      item's resource served under the name `file<ext>`. */
  datatype CaptionUrl = SubtitleUrl(url: string) | CaptionFileUrl(virtualUrl: string, itemId: int, fileName: string)

  datatype Header = Header(name: string, url: CaptionUrl)

  /** `addCaptionInfo`: Samsung clients playing video get a caption header,
      from the rendered subtitle when there is one (`subtitle`), else from
      the first readable caption file beside the media file. */
  function CaptionInfo(
    flags: ClientFlags, mimeType: string, subtitle: Option<string>,
    virtualUrl: string, itemId: int, pathNoExt: string, readable: string -> bool): (r: Option<Header>)
    ensures r.Some? ==> flags.samsung && StartsWith(mimeType, "video") && r.value.name == CaptionHeaderName
    ensures flags.samsung && StartsWith(mimeType, "video") && subtitle.Some? ==>
              r == Some(Header(CaptionHeaderName, SubtitleUrl(subtitle.value)))
    ensures flags.samsung && StartsWith(mimeType, "video") && subtitle.None? ==>
              (r.Some? <==> exists i :: 0 <= i < |CaptionExtensions()| && readable(pathNoExt + CaptionExtensions()[i]))
    ensures r.Some? && subtitle.None? ==>
              exists k :: 0 <= k < |CaptionExtensions()|
                && r.value.url == CaptionFileUrl(virtualUrl, itemId, "file" + CaptionExtensions()[k])
                && readable(pathNoExt + CaptionExtensions()[k])
                && forall i :: 0 <= i < k ==> !readable(pathNoExt + CaptionExtensions()[i])
  {
    FirstReadableIsFirst(CaptionExtensions(), pathNoExt, readable);
    if !flags.samsung || !StartsWith(mimeType, "video") then None
    else if subtitle.Some? then Some(Header(CaptionHeaderName, SubtitleUrl(subtitle.value)))
    else
      match FirstReadable(CaptionExtensions(), pathNoExt, readable)
      case None => None
      case Some(ext) => Some(Header(CaptionHeaderName, CaptionFileUrl(virtualUrl, itemId, "file" + ext)))
  }
}
