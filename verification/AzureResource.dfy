/** The Azure resource id parser: `/subscriptions/<s>/resourceGroups/<g>/providers/<ns>/<type...>/<name>`. */
module AzureResource {
  import opened Text

  datatype Parsed = Parsed(subscriptionId: string, resourceGroup: string, providerNamespace: string,
                           resourceTypePath: string, resourceName: string)

  // --------------------------------------------------------------- string basics

  /** JavaScript whitespace, as `trim` strips it. */
  predicate IsSpace(c: char) {
    IsBlank(c) || c == '\U{FEFF}'
  }

  lemma SpaceCodes(c: char)
    ensures IsSpace(c) <==> IsBlank(c) || c as int == 65279
  {
  }

  /** `toLowerCase`, exact for comparison with the ASCII keywords. */
  function Lower(s: string): string {
    seq(|s|, i requires 0 <= i < |s| => if 'A' <= s[i] <= 'Z' then (s[i] as int + 32) as char else s[i])
  }

  /** `filter(Boolean)`. */
  function NonEmpty(parts: seq<string>): seq<string> {
    if parts == [] then []
    else (if parts[0] == "" then [] else [parts[0]]) + NonEmpty(parts[1..])
  }

  /** Part i is the first that spells the word, in any casing. */
  predicate IsFirst(parts: seq<string>, i: int, word: string) {
    0 <= i < |parts| && Lower(parts[i]) == word && forall j :: 0 <= j < i ==> Lower(parts[j]) != word
  }

  /** `findIndex((p) => p.toLowerCase() === word)`. */
  function FindWord(parts: seq<string>, word: string): (i: int)
    ensures -1 <= i < |parts|
    ensures if i < 0 then forall j :: 0 <= j < |parts| ==> Lower(parts[j]) != word else IsFirst(parts, i, word)
  {
    if parts == [] then -1
    else if Lower(parts[0]) == word then 0
    else
      var i := FindWord(parts[1..], word);
      if i < 0 then -1 else i + 1
  }

  // ----------------------------------------------------------------------- parser

  function ParseParts(parts: seq<string>): Option<Parsed> {
    var s, g, p := FindWord(parts, "subscriptions"), FindWord(parts, "resourcegroups"), FindWord(parts, "providers");
    if s < 0 || g < 0 || p < 0 then None
    else if s + 1 >= |parts| || g + 1 >= |parts| || p + 2 >= |parts| then None
    else
      Some(Parsed(parts[s + 1], parts[g + 1], parts[p + 1], Join(parts[p + 2..|parts| - 1], '/'), parts[|parts| - 1]))
  }

  /** `parseAzureResourceId`; an absent id is an empty one. */
  function Parse(resourceId: string): Option<Parsed> {
    var trimmed := Trim(resourceId, IsSpace);
    if trimmed == "" || trimmed[0] != '/' then None
    else ParseParts(NonEmpty(Split(trimmed, '/')))
  }

  // ---------------------------------------------------------------------- printer

  /** The components of a printed resource id. */
  function Parts(sub: string, group: string, ns: string, types: seq<string>, name: string): seq<string> {
    ["subscriptions", sub, "resourceGroups", group, "providers", ns] + types + [name]
  }

  function Print(sub: string, group: string, ns: string, types: seq<string>, name: string): string {
    "/" + Join(Parts(sub, group, ns, types, name), '/')
  }

  predicate Component(s: string) {
    s != "" && '/' !in s
  }

  predicate Components(parts: seq<string>) {
    forall i :: 0 <= i < |parts| ==> Component(parts[i])
  }

  // ------------------------------------------------------------------------ proofs

  lemma {:induction false} NonEmptyAll(parts: seq<string>)
    requires forall i :: 0 <= i < |parts| ==> parts[i] != ""
    ensures NonEmpty(parts) == parts
  {
    if parts != [] {
      NonEmptyAll(parts[1..]);
    }
  }

  lemma {:induction false} JoinEnds(parts: seq<string>, sep: char)
    requires parts != [] && parts[|parts| - 1] != ""
    ensures Join(parts, sep) != ""
    ensures var s, last := Join(parts, sep), parts[|parts| - 1]; s[|s| - 1] == last[|last| - 1]
  {
    if |parts| > 1 {
      JoinEnds(parts[1..], sep);
    }
  }

  /** The components of a printed id are what the parser sees, unless the name
      ends in whitespace. */
  lemma PartsOfPrint(parts: seq<string>)
    requires parts != [] && Components(parts)
    requires var name := parts[|parts| - 1]; name != "" && !IsSpace(name[|name| - 1])
    ensures var id := "/" + Join(parts, '/');
            Trim(id, IsSpace) == id && NonEmpty(Split(Trim(id, IsSpace), '/')) == parts
  {
    var id, tail := "/" + Join(parts, '/'), Join(parts, '/');
    JoinEnds(parts, '/');
    assert id[|id| - 1] == tail[|tail| - 1];
    assert Trim(id, IsSpace) == id;
    forall p | p in parts ensures '/' !in p {
    }
    SplitJoin(parts, '/');
    assert id[1..] == tail;
    assert Split(id, '/') == [[]] + parts;
    assert ([[]] + parts)[1..] == parts;
    NonEmptyAll(parts);
  }

  lemma LowerKeywords()
    ensures Lower("subscriptions") == "subscriptions" && Lower("providers") == "providers"
    ensures Lower("resourceGroups") == "resourcegroups"
    ensures "subscriptions" != "resourcegroups" && "subscriptions" != "providers" && "resourcegroups" != "providers"
  {
    assert "subscriptions"[0] == 's' && "resourcegroups"[0] == 'r' && "providers"[0] == 'p';
  }

  lemma FindWordCons(head: string, tail: seq<string>, word: string)
    ensures var i := FindWord(tail, word);
            FindWord([head] + tail, word) == if Lower(head) == word then 0 else if i < 0 then -1 else i + 1
  {
    assert ([head] + tail)[1..] == tail;
  }

  /** Where the keywords are found among the components. */
  lemma KeywordPositions(sub: string, group: string, ns: string, rest: seq<string>)
    ensures var parts := ["subscriptions", sub, "resourceGroups", group, "providers", ns] + rest;
            && FindWord(parts, "subscriptions") == 0
            && FindWord(parts, "resourcegroups") == (if Lower(sub) == "resourcegroups" then 1 else 2)
            && FindWord(parts, "providers")
                 == (if Lower(sub) == "providers" then 1 else if Lower(group) == "providers" then 3 else 4)
  {
    hide Lower, FindWord;
    LowerKeywords();
    var parts := ["subscriptions", sub, "resourceGroups", group, "providers", ns] + rest;
    var from4 := ["providers"] + ([ns] + rest);
    var from3 := [group] + from4;
    var from2 := ["resourceGroups"] + from3;
    var from1 := [sub] + from2;
    assert parts == ["subscriptions"] + from1;
    FindWordCons("subscriptions", from1, "subscriptions");
    FindWordCons("subscriptions", from1, "resourcegroups");
    FindWordCons("subscriptions", from1, "providers");
    FindWordCons(sub, from2, "resourcegroups");
    FindWordCons(sub, from2, "providers");
    FindWordCons("resourceGroups", from3, "resourcegroups");
    FindWordCons("resourceGroups", from3, "providers");
    FindWordCons(group, from4, "providers");
    FindWordCons("providers", [ns] + rest, "providers");
  }

  /** No component before the real `providers` is mistaken for a keyword (or, for
      a subscription called `resourcegroups`, the mistake makes no difference). */
  predicate KeywordsClear(sub: string, group: string) {
    && Lower(sub) != "providers" && Lower(group) != "providers"
    && (Lower(sub) == "resourcegroups" ==> group == "resourceGroups")
  }

  lemma JoinInjective(xs: seq<string>, ys: seq<string>)
    requires Components(xs) && Components(ys) && Join(xs, '/') == Join(ys, '/')
    ensures xs == ys
  {
    hide Join, Split;
    if xs == [] || ys == [] {
      EmptyJoin(xs);
      EmptyJoin(ys);
    } else {
      assert forall p | p in xs :: '/' !in p by {
        assert forall i :: 0 <= i < |xs| ==> Component(xs[i]);
      }
      assert forall p | p in ys :: '/' !in p by {
        assert forall i :: 0 <= i < |ys| ==> Component(ys[i]);
      }
      SplitJoin(xs, '/');
      SplitJoin(ys, '/');
    }
  }

  lemma EmptyJoin(xs: seq<string>)
    requires Components(xs)
    ensures Join(xs, '/') == "" <==> xs == []
  {
    if xs != [] {
      assert Component(xs[0]);
    }
  }

  predicate AllSpaces(s: string) {
    forall i :: 0 <= i < |s| ==> IsSpace(s[i])
  }

  /** With a name that is only whitespace, the parser never sees the name. */
  lemma PartsOfBlankName(init: seq<string>, name: string)
    requires init != [] && Components(init) && AllSpaces(name)
    ensures var id := "/" + Join(init + [name], '/');
            Trim(id, IsSpace) != "" && Trim(id, IsSpace)[0] == '/' && NonEmpty(Split(Trim(id, IsSpace), '/')) == init
  {
    hide Join, Split, NonEmpty, IsSpace;
    var id, head := "/" + Join(init + [name], '/'), "/" + Join(init, '/') + "/";
    JoinLast(init, name, '/');
    assert id == head + name;
    TrimRightSpaces(head, name);
    assert Trim(id, IsSpace) == head by {
      SlashIsNoSpace();
    }
    JoinLast(init, "", '/');
    assert head == [] + ['/'] + Join(init + [""], '/');
    forall p | p in init + [""] ensures '/' !in p {
      assert p == "" || Component(p);
    }
    SplitJoin(init + [""], '/');
    SplitAt([], '/', Join(init + [""], '/'));
    NonEmptyAppend([""], init + [""]);
    NonEmptyAppend(init, [""]);
    NonEmptyBlank();
    NonEmptyAll(init);
  }

  lemma SlashIsNoSpace()
    ensures !IsSpace('/')
  {
  }

  lemma NonEmptyBlank()
    ensures NonEmpty([""]) == []
  {
  }

  lemma {:induction false} NonEmptyAppend(xs: seq<string>, ys: seq<string>)
    ensures NonEmpty(xs + ys) == NonEmpty(xs) + NonEmpty(ys)
  {
    if xs == [] {
      assert xs + ys == ys;
    } else {
      assert (xs + ys)[1..] == xs[1..] + ys;
      NonEmptyAppend(xs[1..], ys);
    }
  }

  /** What parsing a printed id should give. */
  function Expected(sub: string, group: string, ns: string, types: seq<string>, name: string): Option<Parsed> {
    Some(Parsed(sub, group, ns, Join(types, '/'), name))
  }

  lemma RoundTripPlain(sub: string, group: string, ns: string, types: seq<string>, name: string)
    requires Components(Parts(sub, group, ns, types, name))
    requires name != "" && !IsSpace(name[|name| - 1])
    ensures Parse(Print(sub, group, ns, types, name)) == Expected(sub, group, ns, types, name)
            <==> KeywordsClear(sub, group)
    ensures var r := Parse(Print(sub, group, ns, types, name)); r.Some? ==> r.value.resourceName == name
  {
    hide Lower, FindWord, Trim, Split, NonEmpty, Join;
    var parts := Parts(sub, group, ns, types, name);
    PartsOfPrint(parts);
    KeywordPositions(sub, group, ns, types + [name]);
    assert parts == ["subscriptions", sub, "resourceGroups", group, "providers", ns] + (types + [name]);
    var n := |parts| - 1;
    assert parts[6..n] == types;
    assert parts[5..n] == [ns] + types;
    assert parts[3..n] == [group, "providers", ns] + types;
    TypesDiffer(parts, types);
  }

  /** A type path that starts too early is not the real one. */
  lemma TypesDiffer(parts: seq<string>, types: seq<string>)
    requires Components(parts) && Components(types)
    ensures forall i, j :: 0 <= i <= j <= |parts| && j - i != |types| ==> Join(parts[i..j], '/') != Join(types, '/')
  {
    hide Join;
    forall i, j | 0 <= i <= j <= |parts| && j - i != |types| ensures Join(parts[i..j], '/') != Join(types, '/') {
      if Join(parts[i..j], '/') == Join(types, '/') {
        JoinInjective(parts[i..j], types);
      }
    }
  }

  /** A name of whitespace only is never recovered. */
  lemma BlankNameLost(sub: string, group: string, ns: string, types: seq<string>, name: string)
    requires Components(Parts(sub, group, ns, types, name)) && AllSpaces(name)
    ensures Parse(Print(sub, group, ns, types, name)) != Expected(sub, group, ns, types, name)
  {
    hide Lower, FindWord, Trim, Split, NonEmpty, Join;
    var parts := Parts(sub, group, ns, types, name);
    var init := parts[..|parts| - 1];
    assert parts == init + [name];
    PartsOfBlankName(init, name);
    KeywordPositions(sub, group, ns, types);
    assert init == ["subscriptions", sub, "resourceGroups", group, "providers", ns] + types;
    assert Components(types) by {
      assert forall i :: 0 <= i < |types| ==> types[i] == parts[6 + i];
    }
    TypesDiffer(init, types);
    var n := |init| - 1;
    if FindWord(init, "providers") == 3 && Join(init[5..n], '/') == Join(types, '/') && init[4] == ns {
      JoinInjective(init[5..n], types);
      AllAlike(init[5..], "providers");
      assert init[n] == "providers";
      assert "providers"[0] == 'p';
    }
  }

  /** A list equal to itself moved by one place is constant. */
  lemma AllAlike(xs: seq<string>, x: string)
    requires xs != [] && xs[0] == x && xs[1..] == xs[..|xs| - 1]
    ensures forall i :: 0 <= i < |xs| ==> xs[i] == x
  {
    var i := 1;
    while i < |xs|
      invariant 1 <= i <= |xs|
      invariant forall j :: 0 <= j < i ==> xs[j] == x
    {
      assert xs[i] == xs[1..][i - 1] == xs[..|xs| - 1][i - 1] == xs[i - 1];
      i := i + 1;
    }
  }

  function SpacesFrom(s: string): (i: nat)
    ensures i <= |s| && AllSpaces(s[i..])
    ensures i > 0 ==> !IsSpace(s[i - 1])
  {
    if s == "" || !IsSpace(s[|s| - 1]) then |s|
    else
      var i := SpacesFrom(s[..|s| - 1]);
      assert s[i..] == s[..|s| - 1][i..] + [s[|s| - 1]];
      i
  }

  /** Parsing a printed id recovers every component exactly when no component is
      mistaken for a keyword and the name does not end in whitespace, for all
      non-empty slash-free components. */
  lemma RoundTripExactly(sub: string, group: string, ns: string, types: seq<string>, name: string)
    requires Components(Parts(sub, group, ns, types, name))
    ensures Parse(Print(sub, group, ns, types, name)) == Some(Parsed(sub, group, ns, Join(types, '/'), name))
            <==> KeywordsClear(sub, group) && name != "" && !IsSpace(name[|name| - 1])
  {
    hide Lower, FindWord, Trim, Split, NonEmpty, Join, Parse, IsSpace;
    var parts := Parts(sub, group, ns, types, name);
    assert Component(parts[|parts| - 1]);
    var i := SpacesFrom(name);
    if i == |name| {
      RoundTripPlain(sub, group, ns, types, name);
    } else if i == 0 {
      assert name[0..] == name;
      BlankNameLost(sub, group, ns, types, name);
      assert IsSpace(name[|name| - 1]);
    } else {
      var stem, spaces := name[..i], name[i..];
      assert name == stem + spaces;
      assert IsSpace(spaces[|spaces| - 1]);
      TrailingSpaceLost(sub, group, ns, types, stem, spaces);
      var shorter := Parts(sub, group, ns, types, stem);
      forall k | 0 <= k < |shorter| ensures Component(shorter[k]) {
        assert Component(parts[k]);
      }
      RoundTripPlain(sub, group, ns, types, stem);
    }
  }

  /** The type components that a parsed type path spells. */
  function TypesOf(r: Parsed): seq<string> {
    if r.resourceTypePath == "" then [] else Split(r.resourceTypePath, '/')
  }

  /** The id that the parsed fields spell. */
  function Rejoin(r: Parsed): string {
    Print(r.subscriptionId, r.resourceGroup, r.providerNamespace, TypesOf(r), r.resourceName)
  }

  lemma TypesOfJoin(types: seq<string>, r: Parsed)
    requires Components(types) && r.resourceTypePath == Join(types, '/')
    ensures TypesOf(r) == types
  {
    hide Join, Split;
    EmptyJoin(types);
    if types != [] {
      forall t | t in types ensures '/' !in t {
        var i :| 0 <= i < |types| && types[i] == t;
        assert Component(types[i]);
      }
      SplitJoin(types, '/');
    }
  }

  lemma {:induction false} SplitComponents(s: string)
    ensures forall p :: p in Split(s, '/') ==> '/' !in p
  {
    if s != "" {
      SplitComponents(s[1..]);
      var rest := Split(s[1..], '/');
      assert forall p :: p in rest[1..] ==> p in rest;
    }
  }

  lemma {:induction false} NonEmptyComponents(parts: seq<string>)
    requires forall p :: p in parts ==> '/' !in p
    ensures Components(NonEmpty(parts))
  {
    if parts != [] {
      NonEmptyComponents(parts[1..]);
    }
  }

  /** The parser only ever answers non-empty slash-free fields. */
  lemma ParsedComponents(id: string, r: Parsed)
    requires Parse(id) == Some(r)
    ensures Components(Parts(r.subscriptionId, r.resourceGroup, r.providerNamespace, TypesOf(r), r.resourceName))
    ensures r.resourceTypePath == Join(TypesOf(r), '/')
  {
    hide FindWord, Trim, Split, NonEmpty, Join, TypesOf;
    var trimmed := Trim(id, IsSpace);
    SplitComponents(trimmed);
    NonEmptyComponents(Split(trimmed, '/'));
    var parts := NonEmpty(Split(trimmed, '/'));
    var s, g, p := FindWord(parts, "subscriptions"), FindWord(parts, "resourcegroups"), FindWord(parts, "providers");
    assert Component(parts[s + 1]) && Component(parts[g + 1]) && Component(parts[p + 1])
           && Component(parts[|parts| - 1]);
    TypesOfJoin(parts[p + 2..|parts| - 1], r);
    KeywordsAreComponents();
  }

  lemma KeywordsAreComponents()
    ensures Component("subscriptions") && Component("resourceGroups") && Component("providers")
  {
  }

  /** Re-joining what was parsed from a printed id gives the id back exactly when
      the parse recovered every component. */
  lemma RejoinExactly(sub: string, group: string, ns: string, types: seq<string>, name: string)
    requires Components(Parts(sub, group, ns, types, name))
    ensures var id := Print(sub, group, ns, types, name);
            (exists r :: Parse(id) == Some(r) && Rejoin(r) == id)
            <==> KeywordsClear(sub, group) && name != "" && !IsSpace(name[|name| - 1])
  {
    hide Lower, FindWord, Trim, Split, NonEmpty, Join, Parse, IsSpace, TypesOf, KeywordsClear;
    var id, parts := Print(sub, group, ns, types, name), Parts(sub, group, ns, types, name);
    RoundTripExactly(sub, group, ns, types, name);
    assert Components(types) by {
      assert forall i :: 0 <= i < |types| ==> types[i] == parts[6 + i];
    }
    var whole := Parsed(sub, group, ns, Join(types, '/'), name);
    TypesOfJoin(types, whole);
    assert Rejoin(whole) == id;
    if r :| Parse(id) == Some(r) && Rejoin(r) == id {
      ParsedComponents(id, r);
      var again := Parts(r.subscriptionId, r.resourceGroup, r.providerNamespace, TypesOf(r), r.resourceName);
      assert Join(again, '/') == id[1..] == Join(parts, '/');
      JoinInjective(again, parts);
      assert again[1] == sub && again[3] == group && again[5] == ns && again[|again| - 1] == name;
      assert again[6..|again| - 1] == TypesOf(r) && parts[6..|parts| - 1] == types;
      assert r == whole;
    }
  }

  lemma {:induction false} JoinExtend(init: seq<string>, last: string, more: string, sep: char)
    ensures Join(init + [last + more], sep) == Join(init + [last], sep) + more
  {
    if init != [] {
      JoinLast(init, last, sep);
      JoinLast(init, last + more, sep);
    }
  }

  /** The components of a printed id are what the parser sees exactly when the
      last one does not end in whitespace. */
  lemma PartsOfPrintExactly(parts: seq<string>)
    requires parts != [] && Components(parts)
    ensures var last := parts[|parts| - 1];
            NonEmpty(Split(Trim("/" + Join(parts, '/'), IsSpace), '/')) == parts
            <==> last != "" && !IsSpace(last[|last| - 1])
  {
    hide Trim, Split, NonEmpty, Join, IsSpace;
    var n := |parts| - 1;
    var init, last := parts[..n], parts[n];
    assert Component(last) && parts == init + [last];
    var i := SpacesFrom(last);
    var stem, spaces := last[..i], last[i..];
    assert last == stem + spaces;
    if i == |last| {
      PartsOfPrint(parts);
    } else {
      assert IsSpace(spaces[|spaces| - 1]);
      if i == 0 {
        assert stem + spaces == spaces;
        BlankLast(init, spaces);
      } else {
        JoinExtend(init, stem, spaces, '/');
        SpacesLost("/" + Join(init + [stem], '/'), spaces);
        assert "/" + Join(parts, '/') == "/" + Join(init + [stem], '/') + spaces;
        forall k | 0 <= k <= n ensures Component((init + [stem])[k]) {
          assert Component(parts[k]);
        }
        PartsOfPrint(init + [stem]);
        assert (init + [stem])[n] != last;
      }
    }
  }

  lemma SpacesLost(id: string, spaces: string)
    requires id != "" && id[0] == '/' && AllSpaces(spaces)
    ensures Trim(id + spaces, IsSpace) == Trim(id, IsSpace)
  {
    TrimRightSpaces(id, spaces);
  }

  lemma BlankLast(init: seq<string>, spaces: string)
    requires Components(init) && AllSpaces(spaces)
    ensures NonEmpty(Split(Trim("/" + Join(init + [spaces], '/'), IsSpace), '/')) == init
  {
    if init == [] {
      TrimRightSpaces("/", spaces);
      assert "/" + Join(init + [spaces], '/') == "/" + spaces;
      assert Trim("/", IsSpace) == "/";
      assert "/"[1..] == "" && Split("", '/') == [""];
      assert NonEmpty(["", ""]) == [];
    } else {
      PartsOfBlankName(init, spaces);
    }
  }

  lemma {:induction false} TrimRightSpaces(s: string, spaces: string)
    requires forall i :: 0 <= i < |spaces| ==> IsSpace(spaces[i])
    ensures TrimRight(s + spaces, IsSpace) == TrimRight(s, IsSpace)
  {
    hide IsSpace;
    if spaces == "" {
      assert s + spaces == s;
    } else {
      TrimRightSpaces(s, spaces[..|spaces| - 1]);
      assert (s + spaces)[..|s + spaces| - 1] == s + spaces[..|spaces| - 1];
    }
  }

  /** Whitespace after a name is lost: the id reads as if it were not there. */
  lemma TrailingSpaceLost(sub: string, group: string, ns: string, types: seq<string>, name: string, spaces: string)
    requires forall i :: 0 <= i < |spaces| ==> IsSpace(spaces[i])
    ensures Parse(Print(sub, group, ns, types, name + spaces)) == Parse(Print(sub, group, ns, types, name))
  {
    hide ParseParts, Split, NonEmpty, TrimRight;
    var init := ["subscriptions", sub, "resourceGroups", group, "providers", ns] + types;
    JoinLast(init, name, '/');
    JoinLast(init, name + spaces, '/');
    var id := Print(sub, group, ns, types, name);
    assert Print(sub, group, ns, types, name + spaces) == id + spaces;
    TrimRightSpaces(id, spaces);
  }

  lemma {:induction false} JoinLast(init: seq<string>, last: string, sep: char)
    requires init != []
    ensures Join(init + [last], sep) == Join(init, sep) + [sep] + last
  {
    assert (init + [last])[1..] == init[1..] + [last];
    if |init| == 1 {
      assert init[1..] + [last] == [last];
    } else {
      JoinLast(init[1..], last, sep);
    }
  }

  // ------------------------------------------------------------ ids as people type

  lemma LowerExactly(s: string, t: string)
    ensures t == Lower(s)
            <==> |t| == |s|
                 && forall i :: 0 <= i < |s| ==>
                      t[i] as int == if 'A' <= s[i] <= 'Z' then s[i] as int + 32 else s[i] as int
  {
    if |t| == |s| && forall i :: 0 <= i < |s| ==> t[i] as int == Lower(s)[i] as int {
      assert forall i :: 0 <= i < |s| ==> t[i] == Lower(s)[i];
      assert t == Lower(s);
    }
  }

  /** What the parser answers for any id: the components around the first
      occurrences of the three keywords, and nothing when one of them, or what must
      follow it, is missing, or when the trimmed id does not begin with a slash. */
  lemma ParseExactly(id: string, s: int, g: int, p: int)
    requires var parts := NonEmpty(Split(Trim(id, IsSpace), '/'));
             IsFirst(parts, s, "subscriptions") && IsFirst(parts, g, "resourcegroups") && IsFirst(parts, p, "providers")
    ensures var trimmed := Trim(id, IsSpace);
            var parts := NonEmpty(Split(trimmed, '/'));
            var n := |parts| - 1;
            Parse(id) == if trimmed != "" && trimmed[0] == '/' && s < n && g < n && p < n - 1 then
                           Some(Parsed(parts[s + 1], parts[g + 1], parts[p + 1], Join(parts[p + 2..n], '/'), parts[n]))
                         else None
  {
    hide Lower, Trim, Split, NonEmpty, Join;
  }

  lemma MissingKeyword(id: string, word: string)
    requires word == "subscriptions" || word == "resourcegroups" || word == "providers"
    requires var parts := NonEmpty(Split(Trim(id, IsSpace), '/')); forall i :: 0 <= i < |parts| ==>
               Lower(parts[i]) != word
    ensures Parse(id) == None
  {
    hide Lower, FindWord, Trim, Split, NonEmpty, Join;
    assert FindWord(NonEmpty(Split(Trim(id, IsSpace), '/')), word) < 0;
  }

  /** The keywords may be in any casing. */
  lemma AnyCasing(k1: string, sub: string, k2: string, group: string, k3: string, ns: string, types: seq<string>,
                  name: string)
    requires var parts := [k1, sub, k2, group, k3, ns] + types + [name]; Components(parts)
    requires Lower(k1) == "subscriptions" && Lower(k2) == "resourcegroups" && Lower(k3) == "providers"
    requires Lower(sub) != "resourcegroups" && Lower(sub) != "providers" && Lower(group) != "providers"
    requires name != "" && !IsSpace(name[|name| - 1])
    ensures Parse("/" + Join([k1, sub, k2, group, k3, ns] + types + [name], '/'))
            == Expected(sub, group, ns, types, name)
  {
    hide Lower, Trim, Split, NonEmpty, Join, Parse;
    var parts := [k1, sub, k2, group, k3, ns] + types + [name];
    var id := "/" + Join(parts, '/');
    PartsOfPrint(parts);
    LowerKeywords();
    SlashFirst(Join(parts, '/'));
    ParseExactly(id, 0, 2, 4);
    assert parts[6..|parts| - 1] == types;
  }

  lemma SlashFirst(s: string)
    ensures ("/" + s)[0] == '/'
  {
  }

  /** Blanks before an id, and empty components, count for nothing. */
  lemma LeadingSpaceLost(spaces: string, id: string)
    requires AllSpaces(spaces)
    ensures Parse(spaces + id) == Parse(id)
  {
    hide ParseParts, Split, NonEmpty, IsSpace;
    TrimLeftSpaces(spaces, id);
  }

  lemma {:induction false} TrimLeftSpaces(spaces: string, s: string)
    requires AllSpaces(spaces)
    ensures TrimLeft(spaces + s, IsSpace) == TrimLeft(s, IsSpace)
  {
    hide IsSpace;
    if spaces == "" {
      assert spaces + s == s;
    } else {
      assert (spaces + s)[1..] == spaces[1..] + s;
      TrimLeftSpaces(spaces[1..], s);
    }
  }

  lemma DoubleSlashIgnored(a: string, b: string)
    ensures NonEmpty(Split(a + "/" + ("/" + b), '/')) == NonEmpty(Split(a + "/" + b, '/'))
  {
    hide Split, NonEmpty;
    SplitConcat(a, '/', b);
    SplitConcat(a, '/', "/" + b);
    SplitConcat("", '/', b);
    assert "" + ['/'] + b == "/" + b;
    SplitFree("", '/');
    NonEmptyAppend(Split(a, '/'), Split(b, '/'));
    NonEmptyAppend(Split(a, '/'), [""] + Split(b, '/'));
    NonEmptyAppend([""], Split(b, '/'));
    NonEmptyBlank();
    assert [] + NonEmpty(Split(b, '/')) == NonEmpty(Split(b, '/'));
  }
}
