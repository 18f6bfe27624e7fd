/** Reading and printing the Cache-Control header, directives as in section 5.2 of
    RFC 9111. */
module CacheControl {
  import opened Wrappers
  import opened Decimal

  /** time.Second in nanoseconds. */
  const SECOND: int := 1_000_000_000

  /** `maxAge` is a duration in nanoseconds. */
  datatype CacheControl = CacheControl(maxAge: Option<int>, noCache: bool, noStore: bool, public: bool,
                                       private: bool, mustRevalidate: bool)

  const NO_CACHE := "no-cache"
  const NO_STORE := "no-store"
  const PUBLIC := "public"
  const PRIVATE := "private"
  const MUST_REVALIDATE := "must-revalidate"
  const MAX_AGE := "max-age"

  // ---------- int64 durations ----------

  function Wrap64(x: int): int {
    (x - MIN_INT64) % 0x1_0000_0000_0000_0000 + MIN_INT64
  }

  /** time.Duration(seconds) * time.Second, wrapping as int64 does. */
  function FromSeconds(seconds: int): int {
    Wrap64(seconds * SECOND)
  }

  /** int(d.Seconds()), truncating toward zero. */
  function ToSeconds(d: int): int {
    if d >= 0 then d / SECOND else -((-d) / SECOND)
  }

  // ---------- the string functions of the standard library ----------

  /** The index of the first `c`, or the length when there is none. */
  function IndexOf(s: string, c: char): (i: nat)
    ensures i <= |s| && (i < |s| ==> s[i] == c) && (forall k :: 0 <= k < i ==> s[k] != c)
  {
    if s == [] || s[0] == c then 0 else 1 + IndexOf(s[1..], c)
  }

  lemma IndexIsFirst(s: string, c: char, i: nat)
    requires i <= |s| && (i < |s| ==> s[i] == c) && (forall k :: 0 <= k < i ==> s[k] != c)
    ensures IndexOf(s, c) == i
  {
  }

  /** strings.Split on a one-character separator. */
  function Split(s: string, c: char): (parts: seq<string>)
    ensures parts != []
    decreases |s|
  {
    var i := IndexOf(s, c);
    if i == |s| then [s] else [s[..i]] + Split(s[i + 1..], c)
  }

  /** unicode.IsSpace. */
  predicate IsSpace(c: char) {
    c in {'\t', '\n', '\U{0B}', '\U{0C}', '\r', ' ', '\U{85}', '\U{A0}', '\U{1680}', '\U{2028}', '\U{2029}',
          '\U{202F}', '\U{205F}', '\U{3000}'}
    || '\U{2000}' <= c <= '\U{200A}'
  }

  function TrimLeft(s: string): string {
    if s != [] && IsSpace(s[0]) then TrimLeft(s[1..]) else s
  }

  function TrimRight(s: string): string {
    if s != [] && IsSpace(s[|s| - 1]) then TrimRight(s[..|s| - 1]) else s
  }

  function TrimSpace(s: string): string {
    TrimRight(TrimLeft(s))
  }

  /** Lower case as far as it can yield an ASCII letter: besides A to Z, the dotted
      capital I and the Kelvin sign. */
  function LowerChar(c: char): char {
    if 'A' <= c <= 'Z' then (c as int + 32) as char
    else if c == '\U{0130}' then 'i'
    else if c == '\U{212A}' then 'k'
    else c
  }

  function ToLower(s: string): string {
    seq(|s|, i requires 0 <= i < |s| => LowerChar(s[i]))
  }

  function Join(parts: seq<string>): string {
    if parts == [] then ""
    else if |parts| == 1 then parts[0]
    else parts[0] + ", " + Join(parts[1..])
  }

  // ---------- reading ----------

  /** The lower-case name of a trimmed directive: what stands before the first '='. */
  function NameOf(directive: string): string {
    ToLower(directive[..IndexOf(directive, '=')])
  }

  /** The number of seconds a trimmed directive gives for max-age, if it does. */
  function AgeOf(directive: string): Option<int> {
    var i := IndexOf(directive, '=');
    if NameOf(directive) == MAX_AGE && i < |directive| then Atoi(directive[i + 1..]) else None
  }

  predicate Mentions(directives: seq<string>, name: string) {
    exists i :: 0 <= i < |directives| && NameOf(TrimSpace(directives[i])) == name
  }

  /** The last readable max-age. */
  function LastAge(directives: seq<string>): Option<int> {
    if directives == [] then None
    else
      var age := AgeOf(TrimSpace(directives[|directives| - 1]));
      if age.Some? then age else LastAge(directives[..|directives| - 1])
  }

  /** What a header value means: a flag is set when some directive has its name, and
      max-age is the last readable one. */
  function Meaning(directives: seq<string>): CacheControl {
    CacheControl(match LastAge(directives) case None => None case Some(seconds) => Some(FromSeconds(seconds)),
                 Mentions(directives, NO_CACHE), Mentions(directives, NO_STORE), Mentions(directives, PUBLIC),
                 Mentions(directives, PRIVATE), Mentions(directives, MUST_REVALIDATE))
  }

  function Parsed(value: string): CacheControl {
    Meaning(Split(value, ','))
  }

  lemma MentionsNext(directives: seq<string>, i: nat, name: string)
    requires i < |directives|
    ensures Mentions(directives[..i + 1], name)
       <==> Mentions(directives[..i], name) || NameOf(TrimSpace(directives[i])) == name
  {
  }

  /** How one more trimmed directive changes the meaning. */
  function Noted(cc: CacheControl, d: string): CacheControl {
    cc.(maxAge := if AgeOf(d).Some? then Some(FromSeconds(AgeOf(d).value)) else cc.maxAge,
        noCache := cc.noCache || NameOf(d) == NO_CACHE,
        noStore := cc.noStore || NameOf(d) == NO_STORE,
        public := cc.public || NameOf(d) == PUBLIC,
        private := cc.private || NameOf(d) == PRIVATE,
        mustRevalidate := cc.mustRevalidate || NameOf(d) == MUST_REVALIDATE)
  }

  lemma LastAgeNext(directives: seq<string>, i: nat)
    requires i < |directives|
    ensures var age := AgeOf(TrimSpace(directives[i]));
            LastAge(directives[..i + 1]) == if age.Some? then age else LastAge(directives[..i])
  {
    assert directives[..i + 1][..i] == directives[..i];
  }

  lemma NextMeaning(directives: seq<string>, i: nat)
    requires i < |directives|
    ensures Meaning(directives[..i + 1]) == Noted(Meaning(directives[..i]), TrimSpace(directives[i]))
  {
    forall name
      ensures Mentions(directives[..i + 1], name)
         <==> Mentions(directives[..i], name) || NameOf(TrimSpace(directives[i])) == name
    {
      MentionsNext(directives, i, name);
    }
    LastAgeNext(directives, i);
  }

  /** At most one case applies, since the names differ. */
  lemma NotedByName(cc: CacheControl, d: string)
    ensures var name := NameOf(d);
            Noted(cc, d)
            == if name == NO_CACHE then cc.(noCache := true)
               else if name == NO_STORE then cc.(noStore := true)
               else if name == PUBLIC then cc.(public := true)
               else if name == PRIVATE then cc.(private := true)
               else if name == MUST_REVALIDATE then cc.(mustRevalidate := true)
               else if AgeOf(d).Some? then cc.(maxAge := Some(FromSeconds(AgeOf(d).value)))
               else cc
  {
  }

  method ParseCacheControl(value: string) returns (cc: CacheControl)
    ensures cc == Parsed(value)
  {
    cc := CacheControl(None, false, false, false, false, false);
    var directives := Split(value, ',');
    for i := 0 to |directives|
      invariant cc == Meaning(directives[..i])
    {
      var directive := TrimSpace(directives[i]);
      var eq := IndexOf(directive, '=');
      var name := ToLower(directive[..eq]);
      NextMeaning(directives, i);
      NotedByName(cc, directive);
      if name == NO_CACHE {
        cc := cc.(noCache := true);
      } else if name == NO_STORE {
        cc := cc.(noStore := true);
      } else if name == PUBLIC {
        cc := cc.(public := true);
      } else if name == PRIVATE {
        cc := cc.(private := true);
      } else if name == MUST_REVALIDATE {
        cc := cc.(mustRevalidate := true);
      } else if name == MAX_AGE {
        if eq < |directive| {
          var seconds := Atoi(directive[eq + 1..]);
          if seconds.Some? {
            cc := cc.(maxAge := Some(FromSeconds(seconds.value)));
          }
        }
      }
    }
    assert directives[..|directives|] == directives;
  }

  // ---------- printing ----------

  function If(b: bool, s: string): seq<string> {
    if b then [s] else []
  }

  function Age(cc: CacheControl): seq<string> {
    if cc.maxAge.Some? then [MAX_AGE + "=" + DecInt(ToSeconds(cc.maxAge.value))] else []
  }

  function Parts(cc: CacheControl): seq<string> {
    If(cc.noCache, NO_CACHE) + If(cc.noStore, NO_STORE) + If(cc.public, PUBLIC) + If(cc.private, PRIVATE)
    + If(cc.mustRevalidate, MUST_REVALIDATE) + Age(cc)
  }

  function Printed(cc: CacheControl): string {
    Join(Parts(cc))
  }

  lemma AppendIf(parts: seq<string>, b: bool, s: string)
    ensures parts + If(b, s) == if b then parts + [s] else parts
  {
  }

  method String(cc: CacheControl) returns (s: string)
    ensures s == Printed(cc)
  {
    var parts: seq<string> := [];
    if cc.noCache { parts := parts + [NO_CACHE]; }
    assert parts == If(cc.noCache, NO_CACHE);
    AppendIf(parts, cc.noStore, NO_STORE);
    if cc.noStore { parts := parts + [NO_STORE]; }
    AppendIf(parts, cc.public, PUBLIC);
    if cc.public { parts := parts + [PUBLIC]; }
    AppendIf(parts, cc.private, PRIVATE);
    if cc.private { parts := parts + [PRIVATE]; }
    AppendIf(parts, cc.mustRevalidate, MUST_REVALIDATE);
    if cc.mustRevalidate { parts := parts + [MUST_REVALIDATE]; }
    assert parts + Age(cc) == Parts(cc);
    if cc.maxAge.Some? { parts := parts + [MAX_AGE + "=" + DecInt(ToSeconds(cc.maxAge.value))]; }
    assert parts == Parts(cc);
    s := Join(parts);
  }

  // ---------- reading what was printed ----------

  /** A part that survives splitting and trimming unchanged. */
  ghost predicate Clean(p: string) {
    p != [] && ',' !in p && !IsSpace(p[0]) && !IsSpace(p[|p| - 1])
  }

  lemma TrimClean(p: string)
    requires Clean(p)
    ensures TrimSpace(p) == p && TrimSpace(" " + p) == p
  {
  }

  lemma SplitBefore(p: string, rest: string, c: char)
    requires c !in p
    ensures Split(p + [c] + rest, c) == [p] + Split(rest, c)
    ensures Split(p, c) == [p]
  {
    var s := p + [c] + rest;
    IndexIsFirst(s, c, |p|);
    IndexIsFirst(p, c, |p|);
    assert s[..|p|] == p && s[|p| + 1..] == rest;
  }

  lemma LeadIsTrimmed(p: string, lead: string)
    requires Clean(p) && (lead == "" || lead == " ")
    ensures ',' !in lead + p && TrimSpace(lead + p) == p
  {
    TrimClean(p);
    assert lead == "" ==> lead + p == p;
  }

  lemma SplitHead(parts: seq<string>, lead: string)
    requires parts != [] && Clean(parts[0]) && (lead == "" || lead == " ")
    ensures Split(lead + Join(parts), ',')
         == [lead + parts[0]] + if |parts| == 1 then [] else Split(" " + Join(parts[1..]), ',')
  {
    var p := lead + parts[0];
    LeadIsTrimmed(parts[0], lead);
    if |parts| == 1 {
      SplitBefore(p, "", ',');
      assert Join(parts) == parts[0];
    } else {
      SplitBefore(p, " " + Join(parts[1..]), ',');
      CommaThenBlank(lead, parts[0], Join(parts[1..]));
    }
  }

  lemma CommaThenBlank(lead: string, p: string, tail: string)
    ensures lead + (p + ", " + tail) == lead + p + [','] + (" " + tail)
  {
  }

  /** Splitting a joined list and trimming gives the list back. `lead` is the blank
      left over from the separator. */
  lemma {:induction false} SplitJoined(parts: seq<string>, lead: string)
    requires parts != [] && (lead == "" || lead == " ")
    requires forall i :: 0 <= i < |parts| ==> Clean(parts[i])
    ensures TrimTo(Split(lead + Join(parts), ','), parts)
    decreases |parts|
  {
    SplitHead(parts, lead);
    LeadIsTrimmed(parts[0], lead);
    if |parts| > 1 {
      SplitJoined(parts[1..], " ");
      TrimToCons(lead + parts[0], Split(" " + Join(parts[1..]), ','), parts);
    }
  }

  lemma TrimToCons(d: string, ds: seq<string>, parts: seq<string>)
    requires parts != [] && TrimSpace(d) == parts[0] && TrimTo(ds, parts[1..])
    ensures TrimTo([d] + ds, parts)
  {
  }

  ghost predicate TrimTo(ds: seq<string>, parts: seq<string>) {
    |ds| == |parts| && forall i :: 0 <= i < |ds| ==> TrimSpace(ds[i]) == parts[i]
  }

  // ---------- the parts ----------

  lemma CleanNames()
    ensures Clean(NO_CACHE) && Clean(NO_STORE) && Clean(PUBLIC) && Clean(PRIVATE) && Clean(MUST_REVALIDATE)
    ensures '=' !in NO_CACHE && '=' !in NO_STORE && '=' !in PUBLIC && '=' !in PRIVATE && '=' !in MUST_REVALIDATE
    ensures ',' !in MAX_AGE && '=' !in MAX_AGE && MAX_AGE[0] == 'm' && |MAX_AGE| == 7
  {
  }

  predicate AllLower(s: string) {
    forall i :: 0 <= i < |s| ==> LowerChar(s[i]) == s[i]
  }

  lemma LowerNames()
    ensures AllLower(NO_CACHE) && AllLower(NO_STORE) && AllLower(PUBLIC) && AllLower(PRIVATE)
    ensures AllLower(MUST_REVALIDATE) && AllLower(MAX_AGE)
  {
  }

  lemma LowerIsSame(s: string)
    requires AllLower(s)
    ensures ToLower(s) == s
  {
  }

  lemma PlainName(p: string)
    requires '=' !in p && AllLower(p)
    ensures NameOf(p) == p && AgeOf(p) == None
  {
  }

  lemma DigitsAreClean(i: int)
    ensures var s := DecInt(i); s != [] && ',' !in s && !IsSpace(s[|s| - 1])
  {
  }

  lemma AgePart(i: int)
    requires MIN_INT64 <= i <= MAX_INT64
    ensures var p := MAX_AGE + "=" + DecInt(i);
            Clean(p) && NameOf(p) == MAX_AGE && AgeOf(p) == Some(i)
  {
    var p := MAX_AGE + "=" + DecInt(i);
    CleanNames();
    LowerNames();
    DigitsAreClean(i);
    IndexIsFirst(p, '=', 7);
    assert p[..7] == MAX_AGE && p[8..] == DecInt(i);
    LowerIsSame(MAX_AGE);
    AtoiOfDecInt(i);
  }

  predicate Named(parts: seq<string>, name: string) {
    exists i :: 0 <= i < |parts| && NameOf(parts[i]) == name
  }

  lemma NamedConcat(a: seq<string>, b: seq<string>, name: string)
    ensures Named(a + b, name) <==> Named(a, name) || Named(b, name)
  {
    if i :| 0 <= i < |a| && NameOf(a[i]) == name {
      assert (a + b)[i] == a[i];
    }
    if i :| 0 <= i < |b| && NameOf(b[i]) == name {
      assert (a + b)[|a| + i] == b[i];
    }
  }

  lemma NamedIf(b: bool, s: string, name: string)
    requires '=' !in s && AllLower(s)
    ensures Named(If(b, s), name) <==> b && name == s
  {
    PlainName(s);
    if b { assert If(b, s)[0] == s; }
  }

  ghost predicate IsDuration(cc: CacheControl) {
    cc.maxAge.Some? ==> MIN_INT64 <= cc.maxAge.value <= MAX_INT64
  }

  lemma NamedAge(cc: CacheControl, name: string)
    requires IsDuration(cc)
    ensures Named(Age(cc), name) <==> cc.maxAge.Some? && name == MAX_AGE
  {
    if cc.maxAge.Some? {
      AgePart(ToSeconds(cc.maxAge.value));
      assert Age(cc)[0] == MAX_AGE + "=" + DecInt(ToSeconds(cc.maxAge.value));
    }
  }

  predicate IsSet(cc: CacheControl, name: string) {
    || (cc.noCache && name == NO_CACHE) || (cc.noStore && name == NO_STORE)
    || (cc.public && name == PUBLIC) || (cc.private && name == PRIVATE)
    || (cc.mustRevalidate && name == MUST_REVALIDATE) || (cc.maxAge.Some? && name == MAX_AGE)
  }

  lemma FlagsAre(cc: CacheControl)
    ensures IsSet(cc, NO_CACHE) == cc.noCache && IsSet(cc, NO_STORE) == cc.noStore
    ensures IsSet(cc, PUBLIC) == cc.public && IsSet(cc, PRIVATE) == cc.private
    ensures IsSet(cc, MUST_REVALIDATE) == cc.mustRevalidate && IsSet(cc, MAX_AGE) == cc.maxAge.Some?
  {
  }

  /** The names that occur in the parts are those of the fields that are set. */
  lemma NamedParts(cc: CacheControl, name: string)
    requires IsDuration(cc)
    ensures Named(Parts(cc), name) <==> IsSet(cc, name)
  {
    CleanNames();
    LowerNames();
    var a, b := If(cc.noCache, NO_CACHE), If(cc.noStore, NO_STORE);
    var c, d, e := If(cc.public, PUBLIC), If(cc.private, PRIVATE), If(cc.mustRevalidate, MUST_REVALIDATE);
    NamedConcat(a, b, name);
    NamedConcat(a + b, c, name);
    NamedConcat(a + b + c, d, name);
    NamedConcat(a + b + c + d, e, name);
    NamedConcat(a + b + c + d + e, Age(cc), name);
    NamedIf(cc.noCache, NO_CACHE, name);
    NamedIf(cc.noStore, NO_STORE, name);
    NamedIf(cc.public, PUBLIC, name);
    NamedIf(cc.private, PRIVATE, name);
    NamedIf(cc.mustRevalidate, MUST_REVALIDATE, name);
    NamedAge(cc, name);
  }

  lemma CleanConcat(a: seq<string>, b: seq<string>)
    requires forall i :: 0 <= i < |a| ==> Clean(a[i])
    requires forall i :: 0 <= i < |b| ==> Clean(b[i])
    ensures forall i :: 0 <= i < |a + b| ==> Clean((a + b)[i])
  {
  }

  lemma PartsAreClean(cc: CacheControl)
    requires IsDuration(cc)
    ensures forall i :: 0 <= i < |Parts(cc)| ==> Clean(Parts(cc)[i])
  {
    CleanNames();
    var a, b := If(cc.noCache, NO_CACHE), If(cc.noStore, NO_STORE);
    var c, d, e := If(cc.public, PUBLIC), If(cc.private, PRIVATE), If(cc.mustRevalidate, MUST_REVALIDATE);
    CleanConcat(a, b);
    CleanConcat(a + b, c);
    CleanConcat(a + b + c, d);
    CleanConcat(a + b + c + d, e);
    if cc.maxAge.Some? { AgePart(ToSeconds(cc.maxAge.value)); }
    CleanConcat(a + b + c + d + e, Age(cc));
  }

  lemma {:induction false} NoAges(directives: seq<string>)
    requires forall i :: 0 <= i < |directives| ==> NameOf(TrimSpace(directives[i])) != MAX_AGE
    ensures LastAge(directives) == None
  {
    if directives != [] {
      NoAges(directives[..|directives| - 1]);
    }
  }

  lemma MentionsNamed(ds: seq<string>, parts: seq<string>, name: string)
    requires TrimTo(ds, parts)
    ensures Mentions(ds, name) <==> Named(parts, name)
  {
  }

  lemma LastAgeOfParts(cc: CacheControl, ds: seq<string>)
    requires IsDuration(cc) && TrimTo(ds, Parts(cc))
    ensures LastAge(ds) == match cc.maxAge case None => None case Some(d) => Some(ToSeconds(d))
  {
    if cc.maxAge.Some? {
      AgePart(ToSeconds(cc.maxAge.value));
      assert Parts(cc)[|ds| - 1] == Age(cc)[0];
    } else {
      NamedParts(cc, MAX_AGE);
      FlagsAre(cc);
      assert !Named(Parts(cc), MAX_AGE);
      assert forall i :: 0 <= i < |ds| ==> TrimSpace(ds[i]) == Parts(cc)[i];
      NoAges(ds);
    }
  }

  function Truncated(cc: CacheControl): CacheControl {
    cc.(maxAge := match cc.maxAge case None => None case Some(d) => Some(ToSeconds(d) * SECOND))
  }

  lemma SecondsDoNotWrap(d: int)
    requires MIN_INT64 <= d <= MAX_INT64
    ensures FromSeconds(ToSeconds(d)) == ToSeconds(d) * SECOND
  {
  }

  lemma FlagSurvives(cc: CacheControl, ds: seq<string>, name: string)
    requires IsDuration(cc) && TrimTo(ds, Parts(cc))
    ensures Mentions(ds, name) <==> IsSet(cc, name)
  {
    MentionsNamed(ds, Parts(cc), name);
    NamedParts(cc, name);
  }

  lemma MeaningOfParts(cc: CacheControl, ds: seq<string>)
    requires IsDuration(cc) && TrimTo(ds, Parts(cc))
    ensures Meaning(ds) == Truncated(cc)
  {
    FlagSurvives(cc, ds, NO_CACHE);
    FlagSurvives(cc, ds, NO_STORE);
    FlagSurvives(cc, ds, PUBLIC);
    FlagSurvives(cc, ds, PRIVATE);
    FlagSurvives(cc, ds, MUST_REVALIDATE);
    FlagsAre(cc);
    LastAgeOfParts(cc, ds);
    if cc.maxAge.Some? { SecondsDoNotWrap(cc.maxAge.value); }
  }

  lemma NoParts(cc: CacheControl)
    requires IsDuration(cc) && Parts(cc) == []
    ensures cc == CacheControl(None, false, false, false, false, false)
  {
  }

  /** Reading back what was printed gives every field, with max-age cut to whole
      seconds. */
  lemma ParsePrinted(cc: CacheControl)
    requires IsDuration(cc)
    ensures Parsed(Printed(cc)) == Truncated(cc)
  {
    var parts := Parts(cc);
    if parts == [] {
      NoParts(cc);
      EmptyMeansNothing();
    } else {
      PartsAreClean(cc);
      SplitJoined(parts, "");
      assert "" + Join(parts) == Join(parts);
      MeaningOfParts(cc, Split(Printed(cc), ','));
    }
  }

  lemma EmptyMeansNothing()
    ensures Parsed("") == CacheControl(None, false, false, false, false, false)
  {
  }

  // ---------- when printing and reading again changes nothing ----------

  /** How many times the product of the seconds wraps around int64. */
  function Wraps(seconds: int): int {
    (seconds * SECOND - MIN_INT64) / 0x1_0000_0000_0000_0000
  }

  const FIVE_TO_NINE: int := 1_953_125

  lemma WholeSecondsAre(d: int)
    ensures d == ToSeconds(d) * SECOND <==> d % SECOND == 0
  {
  }

  /** 2^55 is invertible modulo 5^9, so 5^9 divides q when it divides q * 2^55. */
  lemma FiveToNineDivides(q: int, m: int)
    requires q * 0x80_0000_0000_0000 == m * FIVE_TO_NINE
    ensures q % FIVE_TO_NINE == 0
  {
    assert q == (857457 * m - 15817289833210771 * q) * FIVE_TO_NINE;
  }

  lemma WordMultiples(q: int)
    ensures (q * 0x1_0000_0000_0000_0000) % SECOND == 0 <==> q % FIVE_TO_NINE == 0
  {
    var x := q * 0x1_0000_0000_0000_0000;
    if x % SECOND == 0 {
      var m := x / SECOND;
      assert x == m * SECOND;
      FiveToNineDivides(q, m);
    }
    if q % FIVE_TO_NINE == 0 {
      var m := q / FIVE_TO_NINE;
      assert q == m * FIVE_TO_NINE;
      assert x == (m * 0x80_0000_0000_0000) * SECOND;
    }
  }

  /** A max-age read from text is a whole number of seconds exactly when the number
      of wraps is a multiple of 5^9, as it is when there are none. */
  lemma WholeIffFewWraps(seconds: int)
    ensures FromSeconds(seconds) == ToSeconds(FromSeconds(seconds)) * SECOND
       <==> Wraps(seconds) % FIVE_TO_NINE == 0
  {
    var q, d := Wraps(seconds), FromSeconds(seconds);
    assert d == seconds * SECOND - q * 0x1_0000_0000_0000_0000;
    WholeSecondsAre(d);
    WordMultiples(q);
    DropSeconds(seconds, q * 0x1_0000_0000_0000_0000);
  }

  lemma DropSeconds(k: int, x: int)
    ensures (k * SECOND - x) % SECOND == 0 <==> x % SECOND == 0
  {
  }

  lemma InRangeNeverWraps(seconds: int)
    ensures -9_223_372_036 <= seconds <= 9_223_372_036 <==> Wraps(seconds) == 0
  {
  }

  /** Printing what was read and reading it again gives the same value exactly when
      the last readable max-age, if any, wraps a multiple of 5^9 times; every number
      of at most 9223372036 seconds wraps none. */
  lemma PrintThenParseIff(value: string)
    ensures Parsed(Printed(Parsed(value))) == Parsed(value)
       <==> LastAge(Split(value, ',')).None? || Wraps(LastAge(Split(value, ',')).value) % FIVE_TO_NINE == 0
  {
    var cc := Parsed(value);
    ParsePrinted(cc);
    if LastAge(Split(value, ',')).Some? {
      WholeIffFewWraps(LastAge(Split(value, ',')).value);
    }
  }

  lemma LoneAge(seconds: int)
    requires MIN_INT64 <= seconds <= MAX_INT64
    ensures LastAge(Split(MAX_AGE + "=" + DecInt(seconds), ',')) == Some(seconds)
  {
    var value := MAX_AGE + "=" + DecInt(seconds);
    AgePart(seconds);
    SplitBefore(value, "", ',');
    TrimClean(value);
    assert [value][..0] == [];
  }

  /** No number from the first that overflows up to 3.6e16 survives. */
  lemma OverflowIsNotKept(seconds: int)
    requires 9_223_372_036 < seconds < 36_000_000_000_000_000
    ensures var value := MAX_AGE + "=" + DecInt(seconds);
            Parsed(Printed(Parsed(value))) != Parsed(value)
  {
    LoneAge(seconds);
    FewWraps(seconds);
    PrintThenParseIff(MAX_AGE + "=" + DecInt(seconds));
  }

  lemma FewWraps(seconds: int)
    requires 9_223_372_036 < seconds < 36_000_000_000_000_000
    ensures Wraps(seconds) % FIVE_TO_NINE != 0
  {
  }
}
