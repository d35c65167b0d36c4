/** Channel selection: `nmxp_chan_subset` picks, from the channels of a server, those
    that a comma-separated list of patterns asks for. The first pattern wins. */
module ChannelSubset {
  import opened Wrappers
  import opened ChannelNames
  import opened Sequences

  datatype Channel = Channel(key: int, name: string)

  const MAX_CHANNELS := 2000
  const MAX_NAME := 24

  datatype Wanted = Wanted(dataType: int, defaultNet: string, defaultLoc: string)

  /** The data type in a channel key. */
  function TypeOf(key: int): int { (key / 0x100) % 0x100 }

  /** snprintf into 24 bytes. */
  function Truncate(s: string): string {
    if |s| < MAX_NAME then s else s[..MAX_NAME - 1]
  }

  /** The name a channel gets when `pattern` selects it. */
  function FullName(name: string, pattern: string, w: Wanted): string {
    match CodesOf(pattern)
    case None => ""
    case Some(p) =>
      Truncate((if p.net != "" then p.net else w.defaultNet) + "." + name + "."
               + (if p.loc != "" then p.loc else w.defaultLoc))
  }

  function Keys(chans: seq<Channel>): set<int> {
    set c | c in chans :: c.key
  }

  // ----- the loops, as functions --------------------------------------------

  predicate Takes(acc: seq<Channel>, c: Channel, pattern: string, w: Wanted) {
    MatchOf(c.name, pattern) == 1 && TypeOf(c.key) == w.dataType && c.key !in Keys(acc)
  }

  function Offer(acc: seq<Channel>, c: Channel, pattern: string, w: Wanted): seq<Channel> {
    if Takes(acc, c, pattern, w) then acc + [Channel(c.key, FullName(c.name, pattern, w))] else acc
  }

  /** One pattern: all channels in order, up to the first error. */
  function Scan(acc: seq<Channel>, chans: seq<Channel>, pattern: string, w: Wanted): seq<Channel>
    decreases chans
  {
    if chans == [] then acc
    else
      var acc' := Offer(acc, chans[0], pattern, w);
      if MatchOf(chans[0].name, pattern) == -1 then acc' else Scan(acc', chans[1..], pattern, w)
  }

  function Select(chans: seq<Channel>, patterns: seq<string>, w: Wanted): seq<Channel> {
    if patterns == [] then []
    else
      var n := |patterns| - 1;
      Scan(Select(chans, patterns[..n], w), chans, patterns[n], w)
  }

  // ----- what is selected ---------------------------------------------------

  predicate DistinctKeys(chans: seq<Channel>) {
    forall i, k :: 0 <= i < k < |chans| ==> chans[i].key != chans[k].key
  }

  /** STA.CHA with a three-letter channel code. */
  predicate WellFormed(name: string) {
    FirstDot(name) + 4 == |name|
  }

  lemma {:induction false} ScanKeepsDistinct(acc: seq<Channel>, chans: seq<Channel>, pattern: string, w: Wanted)
    requires DistinctKeys(acc)
    ensures DistinctKeys(Scan(acc, chans, pattern, w))
    ensures Keys(Scan(acc, chans, pattern, w)) <= Keys(acc) + Keys(chans)
    decreases chans
  {
    if chans != [] {
      var acc' := Offer(acc, chans[0], pattern, w);
      OfferKeepsDistinct(acc, chans[0], pattern, w);
      assert chans == [chans[0]] + chans[1..];
      hide Offer, MatchOf;
      if MatchOf(chans[0].name, pattern) != -1 {
        ScanKeepsDistinct(acc', chans[1..], pattern, w);
      }
      assert Keys(chans[1..]) <= Keys(chans) && chans[0].key in Keys(chans);
    }
  }

  lemma OfferKeepsDistinct(acc: seq<Channel>, c: Channel, pattern: string, w: Wanted)
    requires DistinctKeys(acc)
    ensures DistinctKeys(Offer(acc, c, pattern, w))
    ensures Keys(Offer(acc, c, pattern, w)) <= Keys(acc) + {c.key}
  {
    assert forall e :: e in acc ==> e.key in Keys(acc);
  }

  lemma {:induction false} KeysCount(chans: seq<Channel>)
    ensures |Keys(chans)| <= |chans|
    ensures DistinctKeys(chans) ==> |Keys(chans)| == |chans|
  {
    if chans != [] {
      var n := |chans| - 1;
      KeysCount(chans[..n]);
      assert chans == chans[..n] + [chans[n]];
      assert Keys(chans) == Keys(chans[..n]) + {chans[n].key};
    }
  }

  /** No key is selected twice, so that the selection never outgrows the list. */
  lemma {:induction false} SelectionIsBounded(chans: seq<Channel>, patterns: seq<string>, w: Wanted)
    ensures DistinctKeys(Select(chans, patterns, w))
    ensures Keys(Select(chans, patterns, w)) <= Keys(chans)
    ensures |Select(chans, patterns, w)| <= |chans|
  {
    if patterns != [] {
      var n := |patterns| - 1;
      SelectionIsBounded(chans, patterns[..n], w);
      ScanKeepsDistinct(Select(chans, patterns[..n], w), chans, patterns[n], w);
    }
    KeysCount(chans);
    KeysCount(Select(chans, patterns, w));
    Subset(Keys(Select(chans, patterns, w)), Keys(chans));
  }

  // ----- which channels, under which names ----------------------------------

  /** Channel i has this key and matches the pattern, and no channel before it ends the
      scan for the pattern by an error. */
  predicate Hits(chans: seq<Channel>, i: int, pattern: string, key: int) {
    && 0 <= i < |chans| && chans[i].key == key && MatchOf(chans[i].name, pattern) == 1
    && forall m :: 0 <= m < i ==> MatchOf(chans[m].name, pattern) != -1
  }

  predicate FirstHit(chans: seq<Channel>, i: int, pattern: string, key: int) {
    && Hits(chans, i, pattern, key)
    && forall m :: 0 <= m < i ==> chans[m].key != key || MatchOf(chans[m].name, pattern) != 1
  }

  /** The name of the first channel that hits. */
  function HitName(chans: seq<Channel>, pattern: string, key: int): Option<string>
    decreases chans
  {
    if chans == [] then None
    else if chans[0].key == key && MatchOf(chans[0].name, pattern) == 1 then Some(chans[0].name)
    else if MatchOf(chans[0].name, pattern) == -1 then None
    else HitName(chans[1..], pattern, key)
  }

  lemma {:induction false} HitNameIsFirst(chans: seq<Channel>, pattern: string, key: int, name: string)
    ensures HitName(chans, pattern, key) == Some(name) <==>
            exists i :: FirstHit(chans, i, pattern, key) && chans[i].name == name
    decreases chans
  {
    hide MatchOf;
    if chans != [] {
      var rest := chans[1..];
      HitNameIsFirst(rest, pattern, key, name);
      assert forall m :: 0 <= m < |rest| ==> rest[m] == chans[m + 1];
      if chans[0].key == key && MatchOf(chans[0].name, pattern) == 1 {
        assert FirstHit(chans, 0, pattern, key);
      } else if MatchOf(chans[0].name, pattern) != -1 {
        HitsBehind(chans, pattern, key, name);
      }
    }
  }

  lemma HitsBehind(chans: seq<Channel>, pattern: string, key: int, name: string)
    requires chans != [] && MatchOf(chans[0].name, pattern) != -1
    requires !(chans[0].key == key && MatchOf(chans[0].name, pattern) == 1)
    ensures (exists i :: FirstHit(chans, i, pattern, key) && chans[i].name == name) <==>
            (exists i :: FirstHit(chans[1..], i, pattern, key) && chans[1..][i].name == name)
  {
    hide MatchOf;
    var rest := chans[1..];
    forall i: int ensures FirstHit(chans, i + 1, pattern, key) <==> FirstHit(rest, i, pattern, key) {
      if FirstHit(chans, i + 1, pattern, key) {
        assert forall m :: 0 <= m < i ==> rest[m] == chans[m + 1];
      }
      if FirstHit(rest, i, pattern, key) {
        assert forall m :: 0 < m <= i ==> chans[m] == rest[m - 1];
      }
    }
    if i: int :| FirstHit(chans, i, pattern, key) && chans[i].name == name {
      assert FirstHit(rest, i - 1, pattern, key);
    }
    if i: int :| FirstHit(rest, i, pattern, key) && rest[i].name == name {
      assert FirstHit(chans, i + 1, pattern, key);
    }
  }

  /** What one pattern adds: for a key of the wanted type that is not selected yet, the
      first channel that hits, under its full name. */
  lemma {:induction false} ScanAdds(acc: seq<Channel>, chans: seq<Channel>, pattern: string, w: Wanted,
                                      key: int, n: string)
    ensures Channel(key, n) in Scan(acc, chans, pattern, w) <==>
            Channel(key, n) in acc || Added(acc, chans, pattern, w, key, n)
    decreases chans
  {
    if chans != [] {
      OfferAdds(acc, chans[0], pattern, w, key, n);
      ScanAdds(Offer(acc, chans[0], pattern, w), chans[1..], pattern, w, key, n);
      hide MatchOf, FullName, Offer, Keys;
    }
  }

  predicate Added(acc: seq<Channel>, chans: seq<Channel>, pattern: string, w: Wanted, key: int, n: string) {
    var hit := HitName(chans, pattern, key);
    TypeOf(key) == w.dataType && key !in Keys(acc) && hit.Some? && n == FullName(hit.value, pattern, w)
  }

  lemma OfferAdds(acc: seq<Channel>, c: Channel, pattern: string, w: Wanted, key: int, n: string)
    ensures var here := MatchOf(c.name, pattern) == 1 && TypeOf(key) == w.dataType && c.key == key;
      && (Channel(key, n) in Offer(acc, c, pattern, w) <==>
            Channel(key, n) in acc || (here && key !in Keys(acc) && n == FullName(c.name, pattern, w)))
      && (key in Keys(Offer(acc, c, pattern, w)) <==> key in Keys(acc) || here)
  {
    hide MatchOf, FullName;
    var acc' := Offer(acc, c, pattern, w);
    if Takes(acc, c, pattern, w) {
      var e := Channel(c.key, FullName(c.name, pattern, w));
      assert acc' == acc + [e];
      assert forall d :: d in acc' <==> d in acc || d == e;
      assert Keys(acc') == Keys(acc) + {c.key};
    }
  }

  /** The pattern, if any, that selects a key: the first one for which a channel hits. */
  predicate FirstPattern(chans: seq<Channel>, patterns: seq<string>, j: int, key: int) {
    && 0 <= j < |patterns| && HitName(chans, patterns[j], key).Some?
    && forall k :: 0 <= k < j ==> HitName(chans, patterns[k], key) == None
  }

  predicate Matched(chans: seq<Channel>, patterns: seq<string>, key: int) {
    exists j :: 0 <= j < |patterns| && HitName(chans, patterns[j], key).Some?
  }

  lemma MatchedLast(chans: seq<Channel>, patterns: seq<string>, key: int)
    requires patterns != []
    ensures var m := |patterns| - 1;
      Matched(chans, patterns, key) <==> Matched(chans, patterns[..m], key) || HitName(chans, patterns[m], key).Some?
  {
    var m := |patterns| - 1;
    hide HitName;
    if Matched(chans, patterns[..m], key) {
      var j :| 0 <= j < m && HitName(chans, patterns[..m][j], key).Some?;
      assert HitName(chans, patterns[j], key).Some?;
    }
    if Matched(chans, patterns, key) && HitName(chans, patterns[m], key) == None {
      var j :| 0 <= j < |patterns| && HitName(chans, patterns[j], key).Some?;
      assert HitName(chans, patterns[..m][j], key).Some?;
    }
  }

  lemma KeyFromScan(acc: seq<Channel>, chans: seq<Channel>, pattern: string, w: Wanted, key: int)
    ensures key in Keys(Scan(acc, chans, pattern, w)) <==>
            key in Keys(acc) || (TypeOf(key) == w.dataType && HitName(chans, pattern, key).Some?)
  {
    hide FullName, Scan, HitName, TypeOf;
    if key in Keys(acc) {
      var e :| e in acc && e.key == key;
      ScanAdds(acc, chans, pattern, w, key, e.name);
      assert Channel(key, e.name) == e;
    } else if TypeOf(key) == w.dataType && HitName(chans, pattern, key).Some? {
      var n := FullName(HitName(chans, pattern, key).value, pattern, w);
      ScanAdds(acc, chans, pattern, w, key, n);
      assert Channel(key, n) in Scan(acc, chans, pattern, w);
    }
    forall e | e in Scan(acc, chans, pattern, w) && e.key == key
      ensures e in acc || (TypeOf(key) == w.dataType && HitName(chans, pattern, key).Some?)
    {
      ScanAdds(acc, chans, pattern, w, key, e.name);
    }
  }

  lemma {:induction false} KeysSelected(chans: seq<Channel>, patterns: seq<string>, w: Wanted, key: int)
    ensures key in Keys(Select(chans, patterns, w)) <==>
            TypeOf(key) == w.dataType && Matched(chans, patterns, key)
  {
    hide TypeOf, Matched, Scan, HitName, Keys;
    if patterns == [] {
      NothingMatched(chans, w, key);
    } else {
      var m := |patterns| - 1;
      KeysSelected(chans, patterns[..m], w, key);
      MatchedLast(chans, patterns, key);
      KeyFromScan(Select(chans, patterns[..m], w), chans, patterns[m], w, key);
    }
  }

  lemma NothingMatched(chans: seq<Channel>, w: Wanted, key: int)
    ensures !Matched(chans, [], key) && key !in Keys(Select(chans, [], w))
  {
  }

  /** A key is selected just when it has the wanted type and, for some pattern, a channel
      with this key matches that the scan for the pattern gets to. */
  lemma SelectedJustWhenMatched(chans: seq<Channel>, patterns: seq<string>, w: Wanted, key: int)
    ensures key in Keys(Select(chans, patterns, w)) <==>
            TypeOf(key) == w.dataType &&
            exists j, i :: 0 <= j < |patterns| && FirstHit(chans, i, patterns[j], key)
  {
    KeysSelected(chans, patterns, w, key);
    hide FirstHit, HitName, Select, Keys, TypeOf;
    if Matched(chans, patterns, key) {
      var j :| 0 <= j < |patterns| && HitName(chans, patterns[j], key).Some?;
      HitNameIsFirst(chans, patterns[j], key, HitName(chans, patterns[j], key).value);
    }
    if j: int, i: int :| 0 <= j < |patterns| && FirstHit(chans, i, patterns[j], key) {
      FirstHitIndex(chans, i, patterns[j], key);
      HitNameIsFirst(chans, patterns[j], key, chans[i].name);
      assert HitName(chans, patterns[j], key).Some?;
    }
  }

  lemma FirstHitIndex(chans: seq<Channel>, i: int, pattern: string, key: int)
    requires FirstHit(chans, i, pattern, key)
    ensures 0 <= i < |chans|
  {
  }

  /** The entry of a key, name and all, is the one that the first pattern makes for which
      a channel hits; later patterns and channels change nothing. */
  lemma {:induction false} EntryOfFirstPattern(chans: seq<Channel>, patterns: seq<string>, w: Wanted,
                                                 key: int, n: string)
    ensures Channel(key, n) in Select(chans, patterns, w) <==>
            TypeOf(key) == w.dataType && Entry(chans, patterns, w, key, n)
  {
    hide TypeOf, Scan, HitName, FullName, Matched, Entry;
    if patterns == [] {
      NoEntry(chans, w, key, n);
    } else {
      var m := |patterns| - 1;
      EntryOfFirstPattern(chans, patterns[..m], w, key, n);
      KeysSelected(chans, patterns[..m], w, key);
      ScanAdds(Select(chans, patterns[..m], w), chans, patterns[m], w, key, n);
      EntryLast(chans, patterns, w, key, n);
    }
  }

  ghost predicate Entry(chans: seq<Channel>, patterns: seq<string>, w: Wanted, key: int, n: string) {
    exists j :: FirstPattern(chans, patterns, j, key)
                && n == FullName(HitName(chans, patterns[j], key).value, patterns[j], w)
  }

  lemma NoEntry(chans: seq<Channel>, w: Wanted, key: int, n: string)
    ensures !Entry(chans, [], w, key, n) && Channel(key, n) !in Select(chans, [], w)
  {
  }

  lemma EntryLast(chans: seq<Channel>, patterns: seq<string>, w: Wanted, key: int, n: string)
    requires patterns != []
    ensures var m := |patterns| - 1;
      var hit := HitName(chans, patterns[m], key);
      Entry(chans, patterns, w, key, n) <==>
      || Entry(chans, patterns[..m], w, key, n)
      || (!Matched(chans, patterns[..m], key) && hit.Some? && n == FullName(hit.value, patterns[m], w))
  {
    var m := |patterns| - 1;
    hide HitName, FullName;
    assert forall j :: 0 <= j < m ==> patterns[..m][j] == patterns[j];
    forall j
      ensures j < m ==> (FirstPattern(chans, patterns, j, key) <==> FirstPattern(chans, patterns[..m], j, key))
    {}
    assert FirstPattern(chans, patterns, m, key) <==>
           !Matched(chans, patterns[..m], key) && HitName(chans, patterns[m], key).Some?;
    if Entry(chans, patterns, w, key, n) {
      var j :| FirstPattern(chans, patterns, j, key)
               && n == FullName(HitName(chans, patterns[j], key).value, patterns[j], w);
      if j < m {
        assert FirstPattern(chans, patterns[..m], j, key);
      }
    }
    if Entry(chans, patterns[..m], w, key, n) {
      var j :| FirstPattern(chans, patterns[..m], j, key)
               && n == FullName(HitName(chans, patterns[..m][j], key).value, patterns[..m][j], w);
      assert FirstPattern(chans, patterns, j, key);
    }
  }

  /** No channel hits for any pattern before the first j. */
  predicate Unmatched(chans: seq<Channel>, patterns: seq<string>, j: nat, key: int)
    requires j <= |patterns|
  {
    forall k, i :: 0 <= k < j && 0 <= i < |chans| ==> !Hits(chans, i, patterns[k], key)
  }

  /** First pattern wins, and among the channels with the same key the first one. */
  lemma FirstPatternWins(chans: seq<Channel>, patterns: seq<string>, w: Wanted, key: int, n: string)
    ensures Channel(key, n) in Select(chans, patterns, w) <==>
            TypeOf(key) == w.dataType &&
            exists j, i :: 0 <= j < |patterns| && FirstHit(chans, i, patterns[j], key)
                           && Unmatched(chans, patterns, j, key) && n == FullName(chans[i].name, patterns[j], w)
  {
    EntryOfFirstPattern(chans, patterns, w, key, n);
    hide Select, TypeOf, FullName, HitName, MatchOf, Unmatched;
    if Entry(chans, patterns, w, key, n) {
      var j :| FirstPattern(chans, patterns, j, key)
               && n == FullName(HitName(chans, patterns[j], key).value, patterns[j], w);
      HitNameIsFirst(chans, patterns[j], key, HitName(chans, patterns[j], key).value);
      NoneBefore(chans, patterns, j, key);
    }
    if j: int, i: int :| 0 <= j < |patterns| && FirstHit(chans, i, patterns[j], key)
                         && Unmatched(chans, patterns, j, key) && n == FullName(chans[i].name, patterns[j], w) {
      HitNameIsFirst(chans, patterns[j], key, chans[i].name);
      NoneBefore(chans, patterns, j, key);
      assert FirstPattern(chans, patterns, j, key);
    }
  }

  lemma NoneBefore(chans: seq<Channel>, patterns: seq<string>, j: nat, key: int)
    requires j <= |patterns|
    ensures Unmatched(chans, patterns, j, key) <==> forall k :: 0 <= k < j ==> HitName(chans, patterns[k], key) == None
  {
    hide HitName, Hits;
    forall k | 0 <= k < j
      ensures HitName(chans, patterns[k], key) == None <==>
              forall i :: 0 <= i < |chans| ==> !Hits(chans, i, patterns[k], key)
    {
      NoHit(chans, patterns[k], key);
    }
  }

  lemma {:induction false} NoHit(chans: seq<Channel>, pattern: string, key: int)
    ensures HitName(chans, pattern, key) == None <==> forall i :: 0 <= i < |chans| ==> !Hits(chans, i, pattern, key)
    decreases chans
  {
    hide MatchOf;
    if chans != [] {
      var rest := chans[1..];
      NoHit(rest, pattern, key);
      assert forall m :: 0 <= m < |rest| ==> rest[m] == chans[m + 1];
      if chans[0].key == key && MatchOf(chans[0].name, pattern) == 1 {
        assert Hits(chans, 0, pattern, key);
      } else if MatchOf(chans[0].name, pattern) != -1 {
        forall i | 0 <= i < |rest| ensures Hits(chans, i + 1, pattern, key) <==> Hits(rest, i, pattern, key) {
          assert forall m :: 0 < m <= i ==> chans[m] == rest[m - 1];
        }
        assert forall i :: 0 < i < |chans| && Hits(chans, i, pattern, key) ==> Hits(rest, i - 1, pattern, key);
      }
    }
  }

  /** The name of an entry, in codes: network and location are those of the pattern, or
      else the defaults; station and channel are those of the channel. A name of more than
      23 characters is cut. */
  predicate NamedBy(n: string, name: string, p: Codes, w: Wanted)
    requires FirstDot(name) < |name|
  {
    var sta, cha := name[..FirstDot(name)], name[FirstDot(name) + 1..];
    var net := if p.net != "" then p.net else w.defaultNet;
    var loc := if p.loc != "" then p.loc else w.defaultLoc;
    if |net| + |sta| + |cha| + |loc| + 3 <= 23 then
      CodesOf(n) == Some(Codes(net, sta, cha, loc))
    else
      n == (net + "." + sta + "." + cha + "." + loc)[..23]
  }

  lemma FullNameInCodes(name: string, pattern: string, w: Wanted)
    requires Dots(name) == 1 && CodesOf(pattern).Some? && '.' !in w.defaultNet && '.' !in w.defaultLoc
    ensures FirstDot(name) < |name| && NamedBy(FullName(name, pattern, w), name, CodesOf(pattern).value, w)
  {
    var p := CodesOf(pattern).value;
    OneDot(name);
    CodesHaveNoDot(pattern);
    var sta, cha := name[..FirstDot(name)], name[FirstDot(name) + 1..];
    var net := if p.net != "" then p.net else w.defaultNet;
    var loc := if p.loc != "" then p.loc else w.defaultLoc;
    assert FullName(name, pattern, w) == Truncate(net + "." + name + "." + loc);
    hide FullName, CodesOf, Dots, FirstDot, Truncate;
    OneLongName(net, sta, cha, loc);
    TruncatedInCodes(net, sta, cha, loc);
  }

  lemma OneLongName(net: string, sta: string, cha: string, loc: string)
    ensures net + "." + (sta + "." + cha) + "." + loc == net + "." + sta + "." + cha + "." + loc
  {
  }

  lemma TruncatedInCodes(net: string, sta: string, cha: string, loc: string)
    requires '.' !in net && '.' !in sta && '.' !in cha && '.' !in loc
    ensures var full := net + "." + sta + "." + cha + "." + loc;
      if |net| + |sta| + |cha| + |loc| + 3 <= 23 then CodesOf(Truncate(full)) == Some(Codes(net, sta, cha, loc))
      else Truncate(full) == full[..23]
  {
    CodesRoundTrip(Codes(net, sta, cha, loc));
    hide CodesOf;
  }

  /** Every entry of the selection has the name that the codes of the first pattern that
      hits make. */
  lemma EntriesAreNamed(chans: seq<Channel>, patterns: seq<string>, w: Wanted, key: int, n: string)
    requires Channel(key, n) in Select(chans, patterns, w)
    requires (forall c :: c in chans ==> Dots(c.name) == 1) && '.' !in w.defaultNet && '.' !in w.defaultLoc
    ensures exists j, i :: 0 <= j < |patterns| && FirstHit(chans, i, patterns[j], key)
                           && Unmatched(chans, patterns, j, key)
                           && CodesOf(patterns[j]).Some? && FirstDot(chans[i].name) < |chans[i].name|
                           && NamedBy(n, chans[i].name, CodesOf(patterns[j]).value, w)
  {
    FirstPatternWins(chans, patterns, w, key, n);
    hide Select, FullName, CodesOf, Unmatched, NamedBy, MatchOf;
    var j, i :| 0 <= j < |patterns| && FirstHit(chans, i, patterns[j], key)
                && Unmatched(chans, patterns, j, key) && n == FullName(chans[i].name, patterns[j], w);
    assert chans[i] in chans;
    MatchedHasCodes(chans[i].name, patterns[j]);
    FullNameInCodes(chans[i].name, patterns[j], w);
  }

  /** The data type of a key is its second byte. */
  lemma TypeOfKey(instrument: int, dataType: int, channel: int)
    requires 0 <= dataType < 256 && 0 <= channel < 256
    ensures TypeOf(65536 * instrument + 256 * dataType + channel) == dataType
  {
    var key := 65536 * instrument + 256 * dataType + channel;
    assert key / 256 == 256 * instrument + dataType;
  }

  /** When all names are well-formed, no channel keeps the scan from one that matches. */
  lemma WellFormedNamesAreReached(chans: seq<Channel>, i: nat, pattern: string)
    requires i < |chans| && forall c :: c in chans ==> WellFormed(c.name)
    ensures Hits(chans, i, pattern, chans[i].key) <==> MatchOf(chans[i].name, pattern) == 1
  {
    forall m | 0 <= m < i ensures MatchOf(chans[m].name, pattern) == -1 <==> MatchOf(chans[i].name, pattern) == -1 {
      assert chans[m] in chans && chans[i] in chans;
      SameError(chans[m].name, chans[i].name, pattern);
    }
    hide MatchOf;
  }

  /** So on a list of well-formed names with distinct keys, a channel is selected just when
      it has the wanted type and some pattern matches it. */
  lemma WellFormedSelection(chans: seq<Channel>, patterns: seq<string>, w: Wanted, i: nat)
    requires i < |chans| && DistinctKeys(chans) && forall c :: c in chans ==> WellFormed(c.name)
    ensures chans[i].key in Keys(Select(chans, patterns, w)) <==>
            TypeOf(chans[i].key) == w.dataType &&
            exists j :: 0 <= j < |patterns| && MatchOf(chans[i].name, patterns[j]) == 1
  {
    var key := chans[i].key;
    SelectedJustWhenMatched(chans, patterns, w, key);
    forall j | 0 <= j < |patterns|
      ensures (exists m :: FirstHit(chans, m, patterns[j], key)) <==> MatchOf(chans[i].name, patterns[j]) == 1
    {
      OnlyHit(chans, i, patterns[j]);
    }
    hide FirstHit, MatchOf, Select, Keys, TypeOf;
  }

  lemma OnlyHit(chans: seq<Channel>, i: nat, pattern: string)
    requires i < |chans| && DistinctKeys(chans) && forall c :: c in chans ==> WellFormed(c.name)
    ensures (exists m :: FirstHit(chans, m, pattern, chans[i].key)) <==> MatchOf(chans[i].name, pattern) == 1
  {
    WellFormedNamesAreReached(chans, i, pattern);
    hide MatchOf, WellFormed;
    if MatchOf(chans[i].name, pattern) == 1 {
      assert FirstHit(chans, i, pattern, chans[i].key);
    }
  }

  /** On well-formed names, an error can only be the pattern's fault. */
  lemma SameError(a: string, b: string, pattern: string)
    requires WellFormed(a) && WellFormed(b)
    ensures MatchOf(a, pattern) == -1 <==> MatchOf(b, pattern) == -1
  {
  }

  // ----- the list of patterns -----------------------------------------------

  /** The first comma, or the length. */
  function FirstComma(list: string): (k: nat)
    ensures k <= |list|
    ensures ',' !in list[..k] && (k < |list| ==> list[k] == ',')
  {
    if list == [] || list[0] == ',' then 0
    else
      var k := FirstComma(list[1..]);
      assert list[..1 + k] == [list[0]] + list[1..][..k];
      1 + k
  }

  function AfterComma(list: string, k: nat): string
    requires k <= |list|
  {
    if k < |list| then list[k + 1..] else []
  }

  /** The patterns of a list, up to the first empty one. */
  function Items(list: string): seq<string>
    decreases |list|
  {
    var k := FirstComma(list);
    if k == 0 then [] else [list[..k]] + Items(AfterComma(list, k))
  }

  /** Every item followed by a comma. */
  function Joined(items: seq<string>): string {
    if items == [] then [] else items[0] + "," + Joined(items[1..])
  }

  lemma {:induction false} FirstCommaIs(item: string, rest: string)
    requires ',' !in item && (rest == [] || rest[0] == ',')
    ensures FirstComma(item + rest) == |item|
  {
    if item != [] {
      assert (item + rest)[0] == item[0] && (item + rest)[1..] == item[1..] + rest;
      FirstCommaIs(item[1..], rest);
    } else {
      assert item + rest == rest;
    }
  }

  /** Items written one after another are read back, and what follows an empty item is not. */
  lemma {:induction false} ItemsRoundTrip(items: seq<string>, last: string, ignored: string)
    requires forall s :: s in items ==> s != "" && ',' !in s
    requires ',' !in last
    ensures Items(Joined(items) + last) == items + (if last == "" then [] else [last])
    ensures Items(Joined(items) + "," + ignored) == items
  {
    if items == [] {
      FirstCommaIs(last, "");
      assert last + "" == last && last[..|last|] == last;
      assert Joined(items) + last == last;
    } else {
      assert items[0] in items && forall s :: s in items[1..] ==> s in items;
      ItemsRoundTrip(items[1..], last, ignored);
      FirstItem(items, last);
      FirstItem(items, "," + ignored);
      Assoc(Joined(items), ",", ignored);
      Assoc(Joined(items[1..]), ",", ignored);
      Assoc([items[0]], items[1..], if last == "" then [] else [last]);
      assert items == [items[0]] + items[1..];
    }
  }

  lemma FirstItem(items: seq<string>, rest: string)
    requires items != [] && items[0] != "" && ',' !in items[0]
    ensures Items(Joined(items) + rest) == [items[0]] + Items(Joined(items[1..]) + rest)
  {
    var item, more := items[0], Joined(items[1..]) + rest;
    var all := Joined(items) + rest;
    assert all == item + ("," + more);
    FirstCommaIs(item, "," + more);
    assert all[..|item|] == item && all[|item| + 1..] == more;
  }

  // ----- the loops ----------------------------------------------------------

  /** Entry i is the last one under the key. */
  predicate LastWith(s: seq<Channel>, i: int, key: int) {
    0 <= i < |s| && s[i].key == key && forall k :: i < k < |s| ==> s[k].key != key
  }

  /** NMXP_CHAN_LIST_NET */
  class ListNet {
    var number: nat
    const channel: array<Channel>

    /** What the list holds, slot by slot. */
    ghost predicate Lists(s: seq<Channel>)
      reads this, channel
    {
      number == |s| <= channel.Length && forall i :: 0 <= i < |s| ==> channel[i] == s[i]
    }

    constructor ()
      ensures Lists([]) && fresh(channel) && channel.Length == MAX_CHANNELS
    {
      number := 0;
      channel := new Channel[MAX_CHANNELS];
    }

    /** nmxp_chan_lookupName: the last name under a key; NULL when there is none or it is empty. */
    method LookupName(key: int, ghost s: seq<Channel>) returns (name: Option<string>)
      requires Lists(s)
      ensures key !in Keys(s) ==> name == None
      ensures key in Keys(s) ==>
                exists i :: LastWith(s, i, key) && name == if s[i].name == "" then None else Some(s[i].name)
    {
      var ret := "";
      ghost var last := -1;
      var i := 0;
      while i < number
        invariant i <= number && last < i
        invariant last == -1 ==> ret == "" && forall k :: 0 <= k < i ==> s[k].key != key
        invariant last != -1 ==> LastWith(s[..i], last, key) && ret == s[last].name
      {
        assert s[..i + 1] == s[..i] + [s[i]];
        if key == channel[i].key {
          ret := channel[i].name;
          last := i;
        }
        i := i + 1;
      }
      assert s[..i] == s;
      name := if ret == "" then None else Some(ret);
      if last != -1 {
        assert s[last] in s;
      }
    }

    method Add(c: Channel, ghost s: seq<Channel>)
      requires Lists(s) && |s| < channel.Length
      modifies this, channel
      ensures Lists(s + [c])
    {
      channel[number] := c;
      number := number + 1;
    }
  }

  /** One more entry always fits: the keys on the list are distinct and from `chans`. */
  lemma RoomForOne(acc: seq<Channel>, chans: seq<Channel>, c: Channel)
    requires DistinctKeys(acc) && Keys(acc) <= Keys(chans)
    requires c in chans && c.key !in Keys(acc)
    ensures |acc| < |chans|
  {
    KeysCount(acc);
    KeysCount(chans);
    assert c.key in Keys(chans);
    Subset(Keys(acc) + {c.key}, Keys(chans));
  }

  lemma ScanOne(acc: seq<Channel>, chans: seq<Channel>, i: nat, pattern: string, w: Wanted)
    requires i < |chans|
    ensures var acc' := Offer(acc, chans[i], pattern, w);
      Scan(acc, chans[i..], pattern, w) ==
      if MatchOf(chans[i].name, pattern) == -1 then acc' else Scan(acc', chans[i + 1..], pattern, w)
  {
    assert chans[i..][0] == chans[i] && chans[i..][1..] == chans[i + 1..];
  }

  /** What holds of the list between two channels. */
  ghost predicate Sound(acc: seq<Channel>, chans: seq<Channel>) {
    DistinctKeys(acc) && Keys(acc) <= Keys(chans) && forall c :: c in acc ==> c.name != ""
  }

  lemma OfferIsSound(acc: seq<Channel>, chans: seq<Channel>, c: Channel, pattern: string, w: Wanted)
    requires Sound(acc, chans) && c in chans
    ensures Sound(Offer(acc, c, pattern, w), chans)
    ensures Takes(acc, c, pattern, w) ==> |acc| < |chans|
  {
    OfferKeepsDistinct(acc, c, pattern, w);
    assert c.key in Keys(chans);
    if Takes(acc, c, pattern, w) {
      RoomForOne(acc, chans, c);
      FullNameNotEmpty(c.name, pattern, w);
    }
  }

  lemma FullNameNotEmpty(name: string, pattern: string, w: Wanted)
    requires CodesOf(pattern) != None
    ensures FullName(name, pattern, w) != ""
  {
  }

  /** The body of the inner loop: one channel against one pattern. */
  method OfferChannel(ret: ListNet, ghost acc: seq<Channel>, ghost chans: seq<Channel>, c: Channel,
                      pattern: string, w: Wanted) returns (retMatch: int)
    requires ret.Lists(acc) && Sound(acc, chans) && c in chans && |chans| <= ret.channel.Length
    modifies ret, ret.channel
    ensures ret.Lists(Offer(acc, c, pattern, w))
    ensures retMatch == MatchOf(c.name, pattern)
  {
    hide FullName, CodesOf, MatchOf;
    OfferIsSound(acc, chans, c, pattern, w);
    retMatch := Match(c.name, pattern);
    if retMatch == 1 && TypeOf(c.key) == w.dataType {
      var name := ret.LookupName(c.key, acc);
      if name == None {
        MatchedHasCodes(c.name, pattern);
        var full := QualifiedName(c.name, pattern, w);
        ret.Add(Channel(c.key, full), acc);
      }
    }
  }

  lemma MatchedHasCodes(name: string, pattern: string)
    requires MatchOf(name, pattern) == 1
    ensures CodesOf(pattern) != None
  {
  }

  method QualifiedName(name: string, pattern: string, w: Wanted) returns (full: string)
    requires CodesOf(pattern) != None
    ensures full == FullName(name, pattern, w)
  {
    var codes := CopyStaChan(pattern);
    var net := if codes.value.net != "" then codes.value.net else w.defaultNet;
    var loc := if codes.value.loc != "" then codes.value.loc else w.defaultLoc;
    full := Truncate(net + "." + name + "." + loc);
  }

  /** The inner loop: one pattern. */
  method ScanChannels(ret: ListNet, ghost acc0: seq<Channel>, chans: seq<Channel>, pattern: string, w: Wanted)
    requires ret.Lists(acc0) && Sound(acc0, chans) && |chans| <= ret.channel.Length
    modifies ret, ret.channel
    ensures ret.Lists(Scan(acc0, chans, pattern, w)) && Sound(Scan(acc0, chans, pattern, w), chans)
  {
    hide MatchOf, Offer, Scan, Sound;
    ghost var acc := acc0;
    var retMatch := 1;
    var i := 0;
    assert chans[0..] == chans;
    while i < |chans| && retMatch != -1
      invariant i <= |chans| && ret.Lists(acc) && Sound(acc, chans)
      invariant Scan(acc0, chans, pattern, w) == if retMatch == -1 then acc else Scan(acc, chans[i..], pattern, w)
    {
      ScanOne(acc, chans, i, pattern, w);
      OfferIsSound(acc, chans, chans[i], pattern, w);
      retMatch := OfferChannel(ret, acc, chans, chans[i], pattern, w);
      acc := Offer(acc, chans[i], pattern, w);
      i := i + 1;
    }
    if retMatch != -1 {
      ScanNone(acc, chans, pattern, w);
    }
  }

  lemma ScanNone(acc: seq<Channel>, chans: seq<Channel>, pattern: string, w: Wanted)
    ensures Scan(acc, chans[|chans|..], pattern, w) == acc
  {
  }

  /** nmxp_chan_subset. */
  method ChanSubset(chans: seq<Channel>, list: string, w: Wanted) returns (ret: ListNet)
    requires |chans| <= MAX_CHANNELS
    ensures ret.Lists(Select(chans, Items(list), w))
  {
    ret := new ListNet();
    ghost var done: seq<string> := [];
    var rest := list;
    assert done + Items(rest) == Items(list);
    while rest != [] && rest[0] != ','
      invariant ret.channel.Length == MAX_CHANNELS && fresh(ret) && fresh(ret.channel)
      invariant done + Items(rest) == Items(list)
      invariant ret.Lists(Select(chans, done, w)) && Sound(Select(chans, done, w), chans)
      decreases |rest|
    {
      var k := FirstComma(rest);
      var pattern := rest[..k];
      ScanChannels(ret, Select(chans, done, w), chans, pattern, w);
      SelectOneMore(chans, done, pattern, w);
      Assoc(done, [pattern], Items(AfterComma(rest, k)));
      done, rest := done + [pattern], AfterComma(rest, k);
    }
    assert Items(rest) == [] && done + [] == done;
  }

  lemma SelectOneMore(chans: seq<Channel>, done: seq<string>, pattern: string, w: Wanted)
    ensures Select(chans, done + [pattern], w) == Scan(Select(chans, done, w), chans, pattern, w)
  {
    assert (done + [pattern])[..|done|] == done;
  }
}
