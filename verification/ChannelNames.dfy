/** Channel names and patterns: `nmxp_chan_cpy_sta_chan` and `nmxp_chan_match`. */
module ChannelNames {
  import opened Sequences
  import opened Wrappers

  datatype Codes = Codes(net: string, sta: string, cha: string, loc: string)

  // ----- parts of a name ----------------------------------------------------

  /** The parts between the dots. */
  function Split(s: string): (parts: seq<string>)
    ensures parts != []
  {
    if s == [] then [[]]
    else
      var rest := Split(s[1..]);
      if s[0] == '.' then [[]] + rest else [[s[0]] + rest[0]] + rest[1..]
  }

  /** NET.STA.CHAN.LOC, where NET and LOC may be missing. With three parts the lengths
      decide; when they do not, all codes stay empty. */
  function CodesOf(name: string): Option<Codes> {
    var p := Split(name);
    if |p| == 2 then Some(Codes("", p[0], p[1], ""))
    else if |p| == 3 then
      if |p[1]| == 3 && |p[2]| == 2 then Some(Codes("", p[0], p[1], p[2]))
      else if |p[0]| == 2 && |p[2]| == 3 then Some(Codes(p[0], p[1], p[2], ""))
      else Some(Codes("", "", "", ""))
    else if |p| == 4 then Some(Codes(p[0], p[1], p[2], p[3]))
    else None
  }

  lemma {:induction false} SplitNoDot(s: string)
    requires '.' !in s
    ensures Split(s) == [s]
  {
    if s != [] {
      SplitNoDot(s[1..]);
      assert s == [s[0]] + s[1..];
    }
  }

  lemma {:induction false} SplitFirst(s: string, k: nat)
    requires k < |s| && s[k] == '.' && '.' !in s[..k]
    ensures Split(s) == [s[..k]] + Split(s[k + 1..])
  {
    if k > 0 {
      assert s[..k][0] == s[0] && s[1..][..k - 1] == s[..k][1..];
      SplitFirst(s[1..], k - 1);
      assert s[1..][k..] == s[k + 1..] && s[..k] == [s[0]] + s[1..][..k - 1];
    } else {
      assert s[..0] == [];
    }
  }

  /** The parts cut off so far, and the part that the scan is in. */
  ghost predicate Scanned(name: string, i: nat, done: seq<string>, from: nat) {
    && from <= i <= |name| && '.' !in name[from..i]
    && Split(name) == done + Split(name[from..])
  }

  lemma ScanStarts(name: string)
    ensures Scanned(name, 0, [], 0)
  {
    assert name[0..] == name && name[0..0] == [];
    assert [] + Split(name) == Split(name);
  }

  lemma ScanDot(name: string, i: nat, done: seq<string>, from: nat)
    requires Scanned(name, i, done, from) && i < |name| && name[i] == '.'
    ensures Scanned(name, i + 1, done + [name[from..i]], i + 1)
  {
    var rest := name[from..];
    assert rest[..i - from] == name[from..i] && rest[i - from + 1..] == name[i + 1..];
    SplitFirst(rest, i - from);
    Assoc(done, [name[from..i]], Split(name[i + 1..]));
    assert name[i + 1..i + 1] == [];
  }

  lemma ScanOther(name: string, i: nat, done: seq<string>, from: nat)
    requires Scanned(name, i, done, from) && i < |name| && name[i] != '.'
    ensures Scanned(name, i + 1, done, from)
  {
    assert name[from..i + 1] == name[from..i] + [name[i]];
  }

  lemma ScanEnds(name: string, done: seq<string>, from: nat)
    requires Scanned(name, |name|, done, from)
    ensures Split(name) == done + [name[from..]]
  {
    assert name[from..|name|] == name[from..];
    SplitNoDot(name[from..]);
  }

  lemma SplitGrows(name: string, i: nat, done: seq<string>, from: nat)
    requires Scanned(name, i, done, from)
    ensures |Split(name)| > |done|
  {
  }

  /** nmxp_chan_cpy_sta_chan: one scan that notes up to three dots, then the cuts. */
  method CopyStaChan(name: string) returns (codes: Option<Codes>)
    ensures codes == CodesOf(name)
  {
    var cut: seq<string>, from: nat := [], 0;
    var errors := false;
    ScanStarts(name);
    hide Split, Scanned, CodesOf;
    var i := 0;
    while i < |name| && !errors
      invariant i <= |name| && Scanned(name, i, cut, from) && from <= i
      invariant |cut| <= 4 && (errors <==> |cut| == 4)
      decreases |name| - i, !errors
    {
      if name[i] == '.' {
        ScanDot(name, i, cut, from);
        cut, from := cut + [name[from..i]], i + 1;
        errors := |cut| == 4;
      } else {
        ScanOther(name, i, cut, from);
      }
      i := i + 1;
    }
    SplitGrows(name, i, cut, from);
    if errors || cut == [] {
      if !errors {
        ScanEnds(name, cut, from);
      }
      NoCodes(name);
      return None;
    }
    ScanEnds(name, cut, from);
    codes := Arrange(name, cut + [name[from..]]);
  }

  lemma NoCodes(name: string)
    requires |Split(name)| == 1 || |Split(name)| > 4
    ensures CodesOf(name) == None
  {
  }

  /** Which part is which. */
  method Arrange(name: string, p: seq<string>) returns (codes: Option<Codes>)
    requires p == Split(name) && 2 <= |p| <= 4
    ensures codes == CodesOf(name)
  {
    if |p| == 4 {
      codes := Some(Codes(p[0], p[1], p[2], p[3]));
    } else if |p| == 3 {
      if |p[1]| == 3 && |p[2]| == 2 {
        codes := Some(Codes("", p[0], p[1], p[2]));
      } else if |p[0]| == 2 && |p[2]| == 3 {
        codes := Some(Codes(p[0], p[1], p[2], ""));
      } else {
        codes := Some(Codes("", "", "", ""));
      }
    } else {
      codes := Some(Codes("", p[0], p[1], ""));
    }
  }

  /** A name put together from dot-free codes comes apart into the same codes. */
  lemma CodesRoundTrip(c: Codes)
    requires '.' !in c.net && '.' !in c.sta && '.' !in c.cha && '.' !in c.loc
    ensures CodesOf(c.net + "." + c.sta + "." + c.cha + "." + c.loc) == Some(c)
    ensures c.net == c.loc == "" ==> CodesOf(c.sta + "." + c.cha) == Some(c)
  {
    hide Split;
    var tail2 := c.cha + "." + c.loc;
    var tail1 := c.sta + "." + tail2;
    var name := c.net + "." + tail1;
    assert name == c.net + "." + c.sta + "." + c.cha + "." + c.loc;
    FirstPart(c.net, tail1);
    FirstPart(c.sta, tail2);
    FirstPart(c.cha, c.loc);
    SplitNoDot(c.loc);
    FirstPart(c.sta, c.cha);
    SplitNoDot(c.cha);
  }

  /** Three codes are station, channel and location, or network, station and channel, as
      their lengths say; when these say neither, all codes are empty. */
  lemma ThreeCodes(a: string, b: string, c: string)
    requires '.' !in a && '.' !in b && '.' !in c
    ensures CodesOf(a + "." + b + "." + c) ==
            if |b| == 3 && |c| == 2 then Some(Codes("", a, b, c))
            else if |a| == 2 && |c| == 3 then Some(Codes(a, b, c, ""))
            else Some(Codes("", "", "", ""))
  {
    var tail := b + "." + c;
    assert a + "." + b + "." + c == a + "." + tail;
    FirstPart(a, tail);
    FirstPart(b, c);
    SplitNoDot(c);
    hide Split;
  }

  /** A name is refused just when it has no dot, or more than three. */
  lemma {:induction false} CountsDots(name: string)
    ensures |Split(name)| == 1 + Dots(name)
    ensures CodesOf(name) == None <==> Dots(name) == 0 || Dots(name) > 3
  {
    if name != [] {
      CountsDots(name[1..]);
    }
  }

  function Dots(name: string): nat {
    if name == [] then 0 else (if name[0] == '.' then 1 else 0) + Dots(name[1..])
  }

  lemma FirstPart(a: string, b: string)
    requires '.' !in a
    ensures Split(a + "." + b) == [a] + Split(b)
  {
    var s := a + "." + b;
    assert s[..|a|] == a && s[|a| + 1..] == b;
    SplitFirst(s, |a|);
  }

  // ----- matching -----------------------------------------------------------

  predicate Letter(c: char) { 'A' <= c <= 'Z' || 'a' <= c <= 'z' }

  predicate Digit(c: char) { '0' <= c <= '9' }

  /** A pattern in which every code is made of the characters allowed there. */
  predicate ValidPattern(p: Codes) {
    && (forall c :: c in p.loc ==> Letter(c) || Digit(c) || c == '-')
    && (forall c :: c in p.net ==> Letter(c) || Digit(c))
    && (p.sta == "*" || forall c :: c in p.sta ==> Letter(c) || Digit(c) || c == '_')
    && |p.cha| == 3
    && (forall c :: c in p.cha ==> Letter(c) || c == '_' || c == '?')
  }

  function Lower(c: char): char {
    if 'A' <= c <= 'Z' then (c as int + 32) as char else c
  }

  /** strcasecmp gives 0. */
  predicate SameIgnoringCase(a: string, b: string) {
    |a| == |b| && forall i :: 0 <= i < |a| ==> Lower(a[i]) == Lower(b[i])
  }

  predicate Fits(sta: string, cha: string, p: Codes)
    requires |cha| == |p.cha| == 3
  {
    && (SameIgnoringCase(sta, p.sta) || p.sta == "*")
    && forall i :: 0 <= i < 3 ==> p.cha[i] == '?' || p.cha[i] == cha[i]
  }

  /** The first dot in a name, or its length. */
  function FirstDot(name: string): (k: nat)
    ensures k <= |name|
  {
    if name == [] || name[0] == '.' then 0 else 1 + FirstDot(name[1..])
  }

  /** What nmxp_chan_match returns: 1 and 0 for match and no match, -1 for a bad pattern
      or a channel code that is not three long, -2 for a name without a dot. */
  function MatchOf(name: string, pattern: string): int {
    match CodesOf(pattern)
    case None => -1
    case Some(p) =>
      var k := FirstDot(name);
      if !ValidPattern(p) then -1
      else if k == |name| then -2
      else if |name| - (k + 1) != 3 then -1
      else if Fits(name[..k], name[k + 1..], p) then 1 else 0
  }

  /** A loop that checks one code, character by character. */
  method AllAllowed(code: string, digits: bool, extra: string) returns (ok: bool)
    ensures ok <==> forall c :: c in code ==> Letter(c) || (digits && Digit(c)) || c in extra
  {
    ok := true;
    var i := 0;
    while i < |code| && ok
      invariant i <= |code|
      invariant ok ==> forall k :: 0 <= k < i ==> Letter(code[k]) || (digits && Digit(code[k])) || code[k] in extra
      invariant !ok ==> exists c :: c in code && !(Letter(c) || (digits && Digit(c)) || c in extra)
      decreases |code| - i, ok
    {
      if Letter(code[i]) || (digits && Digit(code[i])) || code[i] in extra {
        i := i + 1;
      } else {
        ok := false;
      }
    }
  }

  /** nmxp_chan_match */
  method Match(name: string, pattern: string) returns (ret: int)
    ensures ret == MatchOf(name, pattern)
  {
    var codes := CopyStaChan(pattern);
    if codes == None {
      return -1;
    }
    var p := codes.value;
    var locOk := AllAllowed(p.loc, true, "-");
    var netOk := AllAllowed(p.net, true, "");
    var staOk := AllAllowed(p.sta, true, "_");
    var chaOk := AllAllowed(p.cha, false, "_?");
    if !locOk || !netOk || !(p.sta == "*" || staOk) || |p.cha| != 3 || !chaOk {
      return -1;
    }
    var k := FirstDot(name);
    if k == |name| {
      return -2;
    }
    var sta, cha := name[..k], name[k + 1..];
    if |cha| != 3 {
      return -1;
    }
    ret := 0;
    if SameIgnoringCase(sta, p.sta) || p.sta == "*" {
      ret := 1;
      var i := 0;
      while i < 3 && ret != 0
        invariant i <= 3 && ret in {0, 1}
        invariant ret == 1 <==> forall k :: 0 <= k < i ==> p.cha[k] == '?' || p.cha[k] == cha[k]
        decreases 3 - i, ret
      {
        ret := if p.cha[i] == '?' || p.cha[i] == cha[i] then 1 else 0;
        i := i + 1;
      }
    }
  }

  lemma {:induction false} PartsHaveNoDot(s: string)
    ensures forall part :: part in Split(s) ==> '.' !in part
  {
    if s != [] {
      PartsHaveNoDot(s[1..]);
    }
  }

  lemma CodesHaveNoDot(pattern: string)
    requires CodesOf(pattern).Some?
    ensures var p := CodesOf(pattern).value;
      '.' !in p.net && '.' !in p.sta && '.' !in p.cha && '.' !in p.loc
  {
    PartsHaveNoDot(pattern);
    hide Split;
  }

  /** A name with one dot is a station and a channel code. */
  lemma {:induction false} OneDot(name: string)
    requires Dots(name) == 1
    ensures FirstDot(name) < |name|
    ensures var k := FirstDot(name);
      name == name[..k] + "." + name[k + 1..] && '.' !in name[..k] && '.' !in name[k + 1..]
  {
    if name[0] == '.' {
      NoDots(name[1..]);
      assert name == [] + "." + name[1..];
    } else {
      OneDot(name[1..]);
      var k := FirstDot(name[1..]);
      assert name[..k + 1] == [name[0]] + name[1..][..k] && name[k + 2..] == name[1..][k + 1..];
      assert name == [name[0]] + name[1..];
    }
  }

  lemma {:induction false} NoDots(name: string)
    requires Dots(name) == 0
    ensures '.' !in name
  {
    if name != [] {
      NoDots(name[1..]);
    }
  }

  // ----- which names match --------------------------------------------------

  const UPPER := "ABCDEFGHIJKLMNOPQRSTUVWXYZ"
  const LOWER := "abcdefghijklmnopqrstuvwxyz"
  const DIGITS := "0123456789"

  lemma Alphabet(c: char)
    ensures Letter(c) <==> c in UPPER || c in LOWER
    ensures Digit(c) <==> c in DIGITS
  {
    if 'A' <= c <= 'Z' {
      assert UPPER[c as int - 65] == c;
    }
    if 'a' <= c <= 'z' {
      assert LOWER[c as int - 97] == c;
    }
    if '0' <= c <= '9' {
      assert DIGITS[c as int - 48] == c;
    }
    assert forall k :: 0 <= k < 26 ==> UPPER[k] == (65 + k) as char && LOWER[k] == (97 + k) as char;
    assert forall k :: 0 <= k < 10 ==> DIGITS[k] == (48 + k) as char;
  }

  /** The same letter, in upper or lower case. */
  predicate SameLetter(a: char, b: char) {
    a == b || exists k :: 0 <= k < 26 && ((a == UPPER[k] && b == LOWER[k]) || (a == LOWER[k] && b == UPPER[k]))
  }

  /** The letter in upper case that has this lower case, and the other way round. */
  lemma Lowered(c: char)
    ensures c in UPPER <==> 'A' <= c <= 'Z'
    ensures 'A' <= c <= 'Z' ==> UPPER[c as int - 65] == c && LOWER[c as int - 65] == Lower(c)
  {
    assert forall k :: 0 <= k < 26 ==> UPPER[k] == (65 + k) as char && LOWER[k] == (97 + k) as char;
    if 'A' <= c <= 'Z' {
      assert UPPER[c as int - 65] == c;
    }
  }

  lemma Pairs(k: nat)
    requires k < 26
    ensures Lower(UPPER[k]) == LOWER[k] == Lower(LOWER[k])
  {
    assert UPPER[k] == (65 + k) as char && LOWER[k] == (97 + k) as char;
  }

  lemma LowerIsSameLetter(a: char, b: char)
    ensures Lower(a) == Lower(b) <==> SameLetter(a, b)
  {
    Lowered(a);
    Lowered(b);
    if k :| 0 <= k < 26 && ((a == UPPER[k] && b == LOWER[k]) || (a == LOWER[k] && b == UPPER[k])) {
      Pairs(k);
    }
  }

  predicate AllIn(s: string, allowed: string) {
    forall c :: c in s ==> c in allowed
  }

  predicate SameText(a: string, b: string) {
    |a| == |b| && forall i :: 0 <= i < |a| ==> SameLetter(a[i], b[i])
  }

  /** The codes of a pattern, with the characters that each may have. */
  predicate GoodPattern(p: Codes) {
    && AllIn(p.net, UPPER + LOWER + DIGITS)
    && (p.sta == "*" || AllIn(p.sta, UPPER + LOWER + DIGITS + "_"))
    && |p.cha| == 3 && AllIn(p.cha, UPPER + LOWER + "_?")
    && AllIn(p.loc, UPPER + LOWER + DIGITS + "-")
  }

  lemma GoodIsValid(p: Codes)
    ensures GoodPattern(p) <==> ValidPattern(p)
  {
    forall c: char
      ensures Letter(c) <==> c in UPPER || c in LOWER
      ensures Digit(c) <==> c in DIGITS
    {
      Alphabet(c);
    }
    hide Letter, Digit;
    assert "_?"[0] == '_' && "_?"[1] == '?' && "-"[0] == '-' && "_"[0] == '_';
    assert forall c :: c in "_?" <==> c == '_' || c == '?';
    assert forall c :: c in "-" <==> c == '-';
    assert forall c :: c in "_" <==> c == '_';
  }

  lemma SameTextIgnoresCase(a: string, b: string)
    ensures SameText(a, b) <==> SameIgnoringCase(a, b)
  {
    forall x: char, y: char ensures Lower(x) == Lower(y) <==> SameLetter(x, y) {
      LowerIsSameLetter(x, y);
    }
    hide Lower, SameLetter;
  }

  lemma {:induction false} FirstDotIs(a: string, b: string)
    requires '.' !in a
    ensures FirstDot(a + "." + b) == |a|
  {
    var s := a + "." + b;
    if a != [] {
      FirstDotIs(a[1..], b);
      assert s[0] == a[0] && s[1..] == a[1..] + "." + b;
    }
  }

  lemma {:induction false} NoDot(a: string)
    requires '.' !in a
    ensures FirstDot(a) == |a|
  {
    if a != [] {
      NoDot(a[1..]);
    }
  }

  /** Which names match. A name is a station and a channel code; the codes of the pattern
      must be made of the allowed characters; then the station must be the same but for
      upper and lower case, or the pattern's must be "*", and each letter of the channel
      code must be the same, or the pattern's must be '?'. */
  lemma MatchMeans(sta: string, cha: string, pattern: string, p: Codes)
    requires '.' !in sta && CodesOf(pattern) == Some(p)
    ensures MatchOf(sta + "." + cha, pattern) ==
            if !GoodPattern(p) || |cha| != 3 then -1
            else if (p.sta == "*" || SameText(sta, p.sta))
                    && forall i :: 0 <= i < 3 ==> p.cha[i] == '?' || p.cha[i] == cha[i]
            then 1 else 0
  {
    var name := sta + "." + cha;
    FirstDotIs(sta, cha);
    GoodIsValid(p);
    SameTextIgnoresCase(sta, p.sta);
    hide CodesOf, ValidPattern, GoodPattern, SameText, SameIgnoringCase;
    assert name[..|sta|] == sta && name[|sta| + 1..] == cha;
  }

  lemma MatchWithoutDot(name: string, pattern: string, p: Codes)
    requires '.' !in name && CodesOf(pattern) == Some(p)
    ensures MatchOf(name, pattern) == if GoodPattern(p) then -2 else -1
  {
    NoDot(name);
    GoodIsValid(p);
    hide CodesOf, ValidPattern, GoodPattern;
  }

  /** A pattern that is not made of two, three or four codes is bad for every name. */
  lemma MatchWithoutCodes(name: string, pattern: string)
    ensures (Dots(pattern) == 0 || Dots(pattern) > 3) ==> MatchOf(name, pattern) == -1
  {
    CountsDots(pattern);
    hide CodesOf, Split;
  }

  /** And so for patterns put together from codes, with or without network and location. */
  lemma MatchOfCodes(sta: string, cha: string, p: Codes)
    requires '.' !in sta && '.' !in p.net && '.' !in p.sta && '.' !in p.cha && '.' !in p.loc
    ensures MatchOf(sta + "." + cha, p.net + "." + p.sta + "." + p.cha + "." + p.loc) ==
            if !GoodPattern(p) || |cha| != 3 then -1
            else if (p.sta == "*" || SameText(sta, p.sta))
                    && forall i :: 0 <= i < 3 ==> p.cha[i] == '?' || p.cha[i] == cha[i]
            then 1 else 0
    ensures p.net == p.loc == "" ==>
            MatchOf(sta + "." + cha, p.sta + "." + p.cha) ==
            MatchOf(sta + "." + cha, p.net + "." + p.sta + "." + p.cha + "." + p.loc)
  {
    CodesRoundTrip(p);
    hide CodesOf, MatchOf, GoodPattern, SameText;
    MatchMeans(sta, cha, p.net + "." + p.sta + "." + p.cha + "." + p.loc, p);
    if p.net == p.loc == "" {
      MatchMeans(sta, cha, p.sta + "." + p.cha, p);
    }
  }
}
