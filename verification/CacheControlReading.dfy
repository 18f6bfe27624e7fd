/** What the Cache-Control reader makes of a header value, from the text alone: one
    directive in any spelling, and several in a row. */
module CacheControlReading {
  import opened Wrappers
  import opened Decimal
  import opened CacheControl

  // ---------- several directives ----------

  /** A later reading on top of an earlier one: flags add up, and a later max-age
      replaces an earlier one. */
  function Merged(first: CacheControl, second: CacheControl): CacheControl {
    CacheControl(if second.maxAge.Some? then second.maxAge else first.maxAge,
                 first.noCache || second.noCache, first.noStore || second.noStore, first.public || second.public,
                 first.private || second.private, first.mustRevalidate || second.mustRevalidate)
  }

  lemma SplitTwice(head: string, tail: string, b: string, c: char)
    requires c !in head
    ensures Split(head + [c] + tail, c) == [head] + Split(tail, c)
    ensures Split(head + [c] + tail + [c] + b, c) == [head] + Split(tail + [c] + b, c)
  {
    SplitBefore(head, tail, c);
    SplitBefore(head, tail + [c] + b, c);
    assert head + [c] + tail + [c] + b == head + [c] + (tail + [c] + b);
  }

  lemma ConsAppend(p: string, s: seq<string>, u: seq<string>)
    ensures [p] + (s + u) == [p] + s + u
  {
  }

  lemma SplitStep(head: string, tail: string, b: string, c: char, first: seq<string>, rest: seq<string>)
    requires c !in head && first == Split(tail, c) && Split(tail + [c] + b, c) == first + rest
    ensures Split(head + [c] + tail + [c] + b, c) == Split(head + [c] + tail, c) + rest
  {
    SplitTwice(head, tail, b, c);
    ConsAppend(head, first, rest);
  }

  lemma FirstPart(a: string, c: char) returns (head: string, tail: string)
    requires IndexOf(a, c) < |a|
    ensures a == head + [c] + tail && c !in head
  {
    var i := IndexOf(a, c);
    head, tail := a[..i], a[i + 1..];
  }

  lemma {:induction false} SplitBoth(a: string, b: string, c: char)
    ensures Split(a + [c] + b, c) == Split(a, c) + Split(b, c)
    decreases |a|
  {
    if IndexOf(a, c) == |a| {
      SplitBefore(a, b, c);
    } else {
      var head, tail := FirstPart(a, c);
      SplitBoth(tail, b, c);
      SplitStep(head, tail, b, c, Split(tail, c), Split(b, c));
    }
  }

  lemma MentionsBoth(ds: seq<string>, es: seq<string>, name: string)
    ensures Mentions(ds + es, name) <==> Mentions(ds, name) || Mentions(es, name)
  {
    if i :| 0 <= i < |ds| && NameOf(TrimSpace(ds[i])) == name {
      assert (ds + es)[i] == ds[i];
    }
    if i :| 0 <= i < |es| && NameOf(TrimSpace(es[i])) == name {
      assert (ds + es)[|ds| + i] == es[i];
    }
  }

  lemma {:induction false} LastAgeBoth(ds: seq<string>, es: seq<string>)
    ensures LastAge(ds + es) == if LastAge(es).Some? then LastAge(es) else LastAge(ds)
  {
    if es == [] {
      assert ds + es == ds;
    } else {
      assert (ds + es)[..|ds + es| - 1] == ds + es[..|es| - 1];
      LastAgeBoth(ds, es[..|es| - 1]);
    }
  }

  /** Reading two values joined by a comma merges what each of them reads as. */
  lemma ReadsBoth(a: string, b: string)
    ensures Parsed(a + "," + b) == Merged(Parsed(a), Parsed(b))
  {
    var ds, es := Split(a, ','), Split(b, ',');
    SplitBoth(a, b, ',');
    assert a + "," + b == a + [','] + b;
    LastAgeBoth(ds, es);
    MentionsBoth(ds, es, NO_CACHE);
    MentionsBoth(ds, es, NO_STORE);
    MentionsBoth(ds, es, PUBLIC);
    MentionsBoth(ds, es, PRIVATE);
    MentionsBoth(ds, es, MUST_REVALIDATE);
  }

  // ---------- one directive ----------

  predicate IsBlank(s: string) {
    forall i :: 0 <= i < |s| ==> s[i] == ' ' || s[i] == '\t'
  }

  /** A name in lower case: letters a to z and dashes. */
  predicate IsName(s: string) {
    s != "" && forall i :: 0 <= i < |s| ==> 'a' <= s[i] <= 'z' || s[i] == '-'
  }

  /** `text` is `name` with any of its letters in upper case. */
  predicate Spells(text: string, name: string) {
    |text| == |name|
    && forall i :: 0 <= i < |name| ==>
         text[i] == name[i] || ('a' <= name[i] <= 'z' && text[i] as int == name[i] as int - 32)
  }

  /** Nothing, or an equals sign and what follows it up to its last character that is
      not white space. */
  predicate IsArgument(s: string) {
    s == "" || (s[0] == '=' && ',' !in s && !IsSpace(s[|s| - 1]))
  }

  lemma {:induction false} TrimLeftBlank(left: string, s: string)
    requires IsBlank(left) && s != "" && !IsSpace(s[0])
    ensures TrimLeft(left + s) == s
  {
    if left == "" {
      assert left + s == s;
    } else {
      assert (left + s)[1..] == left[1..] + s;
      TrimLeftBlank(left[1..], s);
    }
  }

  lemma {:induction false} TrimRightBlank(s: string, right: string)
    requires IsBlank(right) && s != "" && !IsSpace(s[|s| - 1])
    ensures TrimRight(s + right) == s
  {
    if right == "" {
      assert s + right == s;
    } else {
      var front := right[..|right| - 1];
      assert (s + right)[..|s + right| - 1] == s + front;
      TrimRightBlank(s, front);
    }
  }

  lemma TrimBlanks(left: string, s: string, right: string)
    requires IsBlank(left) && IsBlank(right) && s != "" && !IsSpace(s[0]) && !IsSpace(s[|s| - 1])
    ensures TrimSpace(left + s + right) == s
  {
    assert left + s + right == left + (s + right);
    TrimLeftBlank(left, s + right);
    TrimRightBlank(s, right);
  }

  lemma SpellingIsPlain(text: string, name: string)
    requires IsName(name) && Spells(text, name)
    ensures ToLower(text) == name && '=' !in text && ',' !in text
    ensures text != "" && !IsSpace(text[0]) && !IsSpace(text[|text| - 1])
  {
  }

  lemma NameIsRead(text: string, name: string, arg: string)
    requires IsName(name) && Spells(text, name) && IsArgument(arg)
    ensures NameOf(text + arg) == name && IndexOf(text + arg, '=') == |text|
    ensures text + arg != "" && !IsSpace((text + arg)[0]) && !IsSpace((text + arg)[|text + arg| - 1])
    ensures ',' !in text + arg
  {
    SpellingIsPlain(text, name);
    IndexIsFirst(text + arg, '=', |text|);
    assert (text + arg)[..|text|] == text;
    if arg == "" { assert text + arg == text; }
  }

  lemma OneDirective(value: string, d: string)
    requires ',' !in value && TrimSpace(value) == d
    ensures Parsed(value)
         == CacheControl(match AgeOf(d) case None => None case Some(seconds) => Some(FromSeconds(seconds)),
                         NameOf(d) == NO_CACHE, NameOf(d) == NO_STORE, NameOf(d) == PUBLIC, NameOf(d) == PRIVATE,
                         NameOf(d) == MUST_REVALIDATE)
  {
    SplitBefore(value, "", ',');
    var ds := [value];
    assert Split(value, ',') == ds && ds[..0] == [];
    assert LastAge(ds[..0]) == None && LastAge(ds) == AgeOf(d);
    forall name ensures Mentions(ds, name) <==> NameOf(d) == name {
      assert NameOf(TrimSpace(ds[0])) == NameOf(d);
    }
  }

  lemma SmallSeconds(seconds: int)
    requires -9_223_372_036 <= seconds <= 9_223_372_036
    ensures FromSeconds(seconds) == seconds * 1_000_000_000
  {
  }

  lemma AgeIsRead(text: string, name: string, arg: string)
    requires IsName(name) && Spells(text, name) && IsArgument(arg)
    ensures AgeOf(text + arg) == if name == "max-age" && arg != "" then Atoi(arg[1..]) else None
  {
    NameIsRead(text, name, arg);
    if arg != "" { assert (text + arg)[|text| + 1..] == arg[1..]; }
  }

  /** The reading of one directive, by its lower-case name and its number. */
  function Reading(name: string, seconds: Option<int>): CacheControl {
    CacheControl(match seconds case None => None case Some(n) => Some(FromSeconds(n)), name == "no-cache",
                 name == "no-store", name == "public", name == "private", name == "must-revalidate")
  }

  lemma OneReading(left: string, text: string, name: string, arg: string, right: string)
    requires IsBlank(left) && IsBlank(right) && IsName(name) && Spells(text, name) && IsArgument(arg)
    ensures Parsed(left + text + arg + right)
         == Reading(name, if name == "max-age" && arg != "" then Atoi(arg[1..]) else None)
  {
    var d, value := text + arg, left + text + arg + right;
    NameIsRead(text, name, arg);
    AgeIsRead(text, name, arg);
    assert value == left + d + right;
    TrimBlanks(left, d, right);
    OneDirective(value, d);
  }

  /** One directive, in any mix of cases and between any blanks: exactly the flag of its
      name is set, and max-age is read when it has a number. */
  lemma DirectiveReads(left: string, text: string, name: string, arg: string, right: string)
    requires IsBlank(left) && IsBlank(right) && IsName(name) && Spells(text, name) && IsArgument(arg)
    ensures var cc := Parsed(left + text + arg + right);
            && cc.noCache == (name == "no-cache") && cc.noStore == (name == "no-store")
            && cc.public == (name == "public") && cc.private == (name == "private")
            && cc.mustRevalidate == (name == "must-revalidate")
            && (cc.maxAge.Some? <==> name == "max-age" && arg != "" && Atoi(arg[1..]).Some?)
            && (cc.maxAge.Some? && -9_223_372_036 <= Atoi(arg[1..]).value <= 9_223_372_036 ==>
                  cc.maxAge.value == Atoi(arg[1..]).value * 1_000_000_000)
  {
    OneReading(left, text, name, arg, right);
    if name == "max-age" && arg != "" && Atoi(arg[1..]).Some? {
      var seconds := Atoi(arg[1..]).value;
      if -9_223_372_036 <= seconds <= 9_223_372_036 { SmallSeconds(seconds); }
    }
  }

  // ---------- the printed text ----------

  lemma JoinFirst(p: string, rest: seq<string>)
    requires rest != []
    ensures Join([p] + rest) == p + ", " + Join(rest)
  {
    assert ([p] + rest)[1..] == rest;
  }

  lemma JoinAll(age: string)
    ensures Join(["no-cache"] + (["no-store"] + (["public"] + (["private"] + (["must-revalidate"] + [age])))))
         == "no-cache, " + ("no-store, " + ("public, " + ("private, " + ("must-revalidate, " + age))))
  {
    var five := ["must-revalidate"] + [age];
    var four := ["private"] + five;
    var three := ["public"] + four;
    JoinFirst("must-revalidate", [age]);
    JoinFirst("private", five);
    JoinFirst("public", four);
    JoinFirst("no-store", three);
    JoinFirst("no-cache", ["no-store"] + three);
    assert Join([age]) == age;
  }

  lemma AllParts(cc: CacheControl, age: string)
    requires cc.noCache && cc.noStore && cc.public && cc.private && cc.mustRevalidate && Age(cc) == [age]
    ensures Parts(cc) == ["no-cache"] + (["no-store"] + (["public"] + (["private"] + (["must-revalidate"] + [age]))))
  {
  }

  lemma AgeIs(cc: CacheControl, seconds: int)
    requires cc.maxAge == Some(seconds * 1_000_000_000)
    ensures Age(cc) == ["max-age=" + DecInt(seconds)]
  {
    WholeSeconds(seconds);
    assert MAX_AGE + "=" == "max-age=";
  }

  lemma WholeSeconds(seconds: int)
    ensures ToSeconds(seconds * 1_000_000_000) == seconds
  {
  }

  lemma TwoParts()
    ensures Printed(CacheControl(None, false, false, true, false, true)) == "public, must-revalidate"
  {
    assert Parts(CacheControl(None, false, false, true, false, true)) == ["public"] + ["must-revalidate"];
    JoinFirst("public", ["must-revalidate"]);
    assert Join(["must-revalidate"]) == "must-revalidate";
  }

  /** The printed text, with every field set and with two. */
  lemma PrintsInOrder(seconds: int)
    ensures Printed(CacheControl(Some(seconds * 1_000_000_000), true, true, true, true, true))
         == "no-cache, " + ("no-store, " + ("public, " + ("private, " + ("must-revalidate, "
            + ("max-age=" + DecInt(seconds))))))
    ensures Printed(CacheControl(None, false, false, true, false, true)) == "public, must-revalidate"
  {
    var cc := CacheControl(Some(seconds * 1_000_000_000), true, true, true, true, true);
    AgeIs(cc, seconds);
    AllParts(cc, "max-age=" + DecInt(seconds));
    JoinAll("max-age=" + DecInt(seconds));
    TwoParts();
  }
}
