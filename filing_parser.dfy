/**
 * The filing parser: the key/value pairs of a filing's SEC header block, and
 * a keyword classification of the filing text into one of ten labels.
 */
module FilingParser {
  import opened Wrappers
  import opened Text

  // ---------------------------------------------------------------------
  // The header block
  // ---------------------------------------------------------------------

  const OpenTag := "<SEC-HEADER>"
  const CloseTag := "</SEC-HEADER>"

  /**
   * `re.search(r'<SEC-HEADER>(.*?)</SEC-HEADER>', content, re.DOTALL)`: the
   * text between the first opening tag and the first closing tag after it.
   */
  function HeaderBlock(content: string): (r: Option<string>)
    ensures r.None? <==> !exists i, j :: OccursAt(content, OpenTag, i) && OccursAt(content, CloseTag, j) && i + |OpenTag| <= j
    ensures r.Some? ==> exists i, j ::
      && OccursAt(content, OpenTag, i) && OccursAt(content, CloseTag, j) && i + |OpenTag| <= j
      && r.value == content[i + |OpenTag|..j]
      && (forall k :: 0 <= k < i ==> !OccursAt(content, OpenTag, k))
      && (forall k :: i + |OpenTag| <= k < j ==> !OccursAt(content, CloseTag, k))
  {
    var i := Find(content, OpenTag);
    if i == -1 then None
    else
      var j := FindFrom(content, CloseTag, i + |OpenTag|);
      if j == -1 then None else Some(content[i + |OpenTag|..j])
  }

  // ---------------------------------------------------------------------
  // One header line
  // ---------------------------------------------------------------------

  /** `[A-Z\s-]` */
  predicate KeyChar(c: char) {
    IsUpper(c) || IsSpace(c) || c == '-'
  }

  /** The end of the run of key characters that starts at `i`. */
  function KeyRunEnd(s: string, i: nat): (j: nat)
    requires i <= |s|
    ensures i <= j <= |s| && (j == |s| || !KeyChar(s[j]))
    ensures forall k :: i <= k < j ==> KeyChar(s[k])
    decreases |s| - i
  {
    if i == |s| || !KeyChar(s[i]) then i else KeyRunEnd(s, i + 1)
  }

  /** The end of the run of whitespace that starts at `i`. */
  function SpaceRunEnd(s: string, i: nat): (j: nat)
    requires i <= |s|
    ensures i <= j <= |s| && (j == |s| || !IsSpace(s[j]))
    ensures forall k :: i <= k < j ==> IsSpace(s[k])
    decreases |s| - i
  {
    if i == |s| || !IsSpace(s[i]) then i else SpaceRunEnd(s, i + 1)
  }

  /**
   * `re.match(r'([A-Z][A-Z\s-]+):\s+(.+)', s)` on a line without a newline:
   * the two groups. The key run is greedy and cannot contain the colon, so it
   * must end right at it; when nothing but whitespace follows the colon, the
   * value group takes back the last whitespace character.
   */
  function MatchKeyValue(s: string): Option<(string, string)> {
    if s == [] || !IsUpper(s[0]) then None
    else
      var p := KeyRunEnd(s, 1);
      if p < 2 || p == |s| || s[p] != ':' then None
      else
        var q := SpaceRunEnd(s, p + 1);
        if q == p + 1 then None
        else if q < |s| then Some((s[..p], s[q..]))
        else if q - (p + 1) >= 2 then Some((s[..p], s[q - 1..]))
        else None
  }

  /** A header line's entry: the line is stripped, then matched, then both groups are stripped. */
  function Entry(line: string): Option<(string, string)> {
    var m := MatchKeyValue(Strip(line));
    if m.None? then None else Some((Strip(m.value.0), Strip(m.value.1)))
  }

  /**
   * The shape of a stripped key: an upper-case letter, then key characters,
   * ending in a non-space. The pattern's group has at least two characters,
   * but stripping can leave one ("A : x" gives the key "A").
   */
  predicate KeyShape(k: string) {
    |k| >= 1 && IsUpper(k[0]) && !IsSpace(k[|k| - 1]) && forall i :: 0 <= i < |k| ==> KeyChar(k[i])
  }

  /** A stripped, non-empty value on one line. */
  predicate ValueShape(v: string) {
    v != [] && !IsSpace(v[0]) && !IsSpace(v[|v| - 1]) && '\n' !in v
  }

  /** On a stripped line the value group is never only whitespace, and the key group starts upper case. */
  lemma MatchShape(s: string)
    requires s == [] || !IsSpace(s[|s| - 1])
    requires MatchKeyValue(s).Some?
    ensures var (k, v) := MatchKeyValue(s).value;
      && |k| >= 2 && IsUpper(k[0]) && (forall i :: 0 <= i < |k| ==> KeyChar(k[i]))
      && v != [] && !IsSpace(v[0]) && !IsSpace(v[|v| - 1])
  {
    var p := KeyRunEnd(s, 1);
    var q := SpaceRunEnd(s, p + 1);
  }

  /** Stripping a key group drops only its trailing whitespace. */
  lemma StripKeyGroup(k: string)
    requires |k| >= 2 && IsUpper(k[0]) && forall i :: 0 <= i < |k| ==> KeyChar(k[i])
    ensures KeyShape(Strip(k))
  {
    WhitespaceIsSpace(k[0]);
    assert LStripChars(k, Whitespace) == k;
    var ks := RStripChars(k, Whitespace);
    WhitespaceIsSpace(ks[|ks| - 1]);
    assert forall i :: 0 <= i < |ks| ==> ks[i] == k[i];
  }

  /** Every entry has a key of the stripped key shape and a stripped, non-empty value. */
  lemma EntryShape(line: string)
    requires Entry(line).Some?
    ensures KeyShape(Entry(line).value.0)
    ensures var v := Entry(line).value.1; v != [] && !IsSpace(v[0]) && !IsSpace(v[|v| - 1])
  {
    var s := Strip(line);
    assert s == [] || !IsSpace(s[|s| - 1]) by { StripEnds(line); }
    var (k, v) := MatchKeyValue(s).value;
    assert Entry(line) == Some((Strip(k), Strip(v)));
    MatchShape(s);
    StripKeyGroup(k);
    StripFixed(v);
  }

  /** A header line as a filer writes it. */
  function HeaderLine(k: string, v: string): string {
    k + ": " + v
  }

  /** The pattern splits `KEY: value` into its two parts. */
  lemma MatchRoundTrip(k: string, v: string)
    requires KeyShape(k) && |k| >= 2 && ValueShape(v)
    ensures MatchKeyValue(HeaderLine(k, v)) == Some((k, v))
  {
    var s := HeaderLine(k, v);
    assert s[|k|] == ':';
    KeyRunEndIs(s, 1, |k|);
    assert s[|k| + 1] == ' ' && s[|k| + 2] == v[0];
    SpaceRunEndIs(s, |k| + 1, |k| + 2);
    assert s[..|k|] == k;
    assert s[|k| + 2..] == v;
  }

  /** Writing `KEY: value` and reading it back gives the pair. */
  lemma EntryRoundTrip(k: string, v: string)
    requires KeyShape(k) && |k| >= 2 && ValueShape(v)
    ensures Entry(HeaderLine(k, v)) == Some((k, v))
  {
    HeaderLineStripped(k, v);
    MatchRoundTrip(k, v);
    StripFixed(k);
    StripFixed(v);
    EntryOfStripped(HeaderLine(k, v));
  }

  lemma HeaderLineStripped(k: string, v: string)
    requires k != [] && !IsSpace(k[0]) && v != [] && !IsSpace(v[|v| - 1])
    ensures Strip(HeaderLine(k, v)) == HeaderLine(k, v)
  {
    var s := HeaderLine(k, v);
    assert s[0] == k[0] && s[|s| - 1] == v[|v| - 1];
    StripFixed(s);
  }

  /** A line that is already stripped is matched as it is. */
  lemma EntryOfStripped(s: string)
    requires Strip(s) == s
    ensures Entry(s) == (var m := MatchKeyValue(s); if m.None? then None else Some((Strip(m.value.0), Strip(m.value.1))))
  {
  }

  lemma {:induction false} KeyRunEndIs(s: string, i: nat, j: nat)
    requires i <= j <= |s| && (j == |s| || !KeyChar(s[j]))
    requires forall k :: i <= k < j ==> KeyChar(s[k])
    ensures KeyRunEnd(s, i) == j
    decreases j - i
  {
    if i < j {
      KeyRunEndIs(s, i + 1, j);
    }
  }

  lemma {:induction false} SpaceRunEndIs(s: string, i: nat, j: nat)
    requires i <= j <= |s| && (j == |s| || !IsSpace(s[j]))
    requires forall k :: i <= k < j ==> IsSpace(s[k])
    ensures SpaceRunEnd(s, i) == j
    decreases j - i
  {
    if i < j {
      SpaceRunEndIs(s, i + 1, j);
    }
  }

  /** Keys of a single letter are not matched: the key group needs two characters. */
  lemma OneLetterKeyIgnored(c: char, v: string)
    requires IsUpper(c) && ValueShape(v)
    ensures Entry(HeaderLine([c], v)) == None
  {
    var s := HeaderLine([c], v);
    assert MatchKeyValue(s).None? by {
      assert s[1] == ':';
      KeyRunEndIs(s, 1, 1);
    }
    HeaderLineStripped([c], v);
    EntryOfStripped(s);
  }

  // ---------------------------------------------------------------------
  // The header map
  // ---------------------------------------------------------------------

  /** The entry of every line, in order. */
  function Entries(lines: seq<string>): seq<Option<(string, string)>> {
    MapSeq(Entry, lines)
  }

  lemma EntriesAt(lines: seq<string>, i: nat)
    requires i < |lines|
    ensures Entries(lines)[i] == Entry(lines[i])
  {
    MapSeqAt(Entry, lines, i);
  }

  /** Every key an entry yields has the key shape. */
  lemma EntriesKeyShape(lines: seq<string>, i: nat)
    requires i < |lines| && Entries(lines)[i].Some?
    ensures KeyShape(Entries(lines)[i].value.0)
  {
    EntriesAt(lines, i);
    EntryShape(lines[i]);
  }

  /** The header map after the given entries, each overwriting an earlier one with the same key. */
  function Collect(es: seq<Option<(string, string)>>): map<string, string> {
    if es == [] then map[]
    else
      var m := Collect(es[..|es| - 1]);
      var e := es[|es| - 1];
      if e.Some? then m[e.value.0 := e.value.1] else m
  }

  predicate HasKey(e: Option<(string, string)>, k: string) {
    e.Some? && e.value.0 == k
  }

  /**
   * A key is in the header exactly when some entry has it, and its value is
   * that of the last such entry.
   */
  lemma {:induction false} CollectLastWins(es: seq<Option<(string, string)>>, k: string)
    ensures k in Collect(es) <==> exists i :: 0 <= i < |es| && HasKey(es[i], k)
    ensures k in Collect(es) ==> exists i :: (0 <= i < |es| && es[i] == Some((k, Collect(es)[k]))
      && forall j :: i < j < |es| ==> !HasKey(es[j], k))
  {
    if es != [] {
      var n := |es| - 1;
      var init := es[..n];
      var m := Collect(init);
      assert Collect(es) == if es[n].Some? then m[es[n].value.0 := es[n].value.1] else m;
      CollectLastWins(init, k);
      assert forall i :: 0 <= i < n ==> init[i] == es[i];
      if HasKey(es[n], k) {
        assert es[n] == Some((k, Collect(es)[k]));
      } else {
        assert (k in Collect(es) <==> k in m) && (k in m ==> Collect(es)[k] == m[k]);
        if k in m {
          var i :| 0 <= i < n && init[i] == Some((k, m[k]))
            && forall j :: i < j < n ==> !HasKey(init[j], k);
          assert es[i] == Some((k, Collect(es)[k]));
        }
      }
    }
  }

  /** `parse_filing_header` as a value: the header map of the block's lines, or empty. */
  function FilingHeader(content: string): map<string, string> {
    match HeaderBlock(content)
    case None => map[]
    case Some(block) => Collect(Entries(Split(block, '\n')))
  }

  /**
   * A key is in the header of a block's lines exactly when the entry of some
   * line has it, and then its value comes from the last line that does.
   */
  lemma HeaderLastWins(lines: seq<string>, k: string)
    ensures var es := Entries(lines);
      && (k in Collect(es) <==> exists i :: 0 <= i < |es| && HasKey(es[i], k))
      && (k in Collect(es) ==> exists i :: (0 <= i < |es| && es[i] == Some((k, Collect(es)[k]))
            && forall j :: i < j < |es| ==> !HasKey(es[j], k)))
  {
    CollectLastWins(Entries(lines), k);
  }

  /** Every key of a header has the key shape. */
  lemma HeaderKeysShaped(lines: seq<string>, k: string)
    requires k in Collect(Entries(lines))
    ensures KeyShape(k)
  {
    CollectLastWins(Entries(lines), k);
    var i :| 0 <= i < |lines| && HasKey(Entries(lines)[i], k);
    EntriesKeyShape(lines, i);
  }

  /** The loop of `parse_filing_header`, for a line matcher `f`: every matching line sets its key. */
  method CollectLines(f: string -> Option<(string, string)>, lines: seq<string>) returns (header: map<string, string>)
    ensures header == Collect(MapSeq(f, lines))
  {
    header := map[];
    ghost var es := MapSeq(f, lines);
    var i := 0;
    while i < |lines|
      invariant 0 <= i <= |lines|
      invariant header == Collect(es[..i])
    {
      assert es[..i + 1][..i] == es[..i];
      var e := f(lines[i]);
      MapSeqAt(f, lines, i);
      if e.Some? {
        header := header[e.value.0 := e.value.1];
      }
      i := i + 1;
    }
    assert es[..i] == es;
  }

  /** `parse_filing_header`: the header block's lines, collected with `Entry`. */
  method ParseFilingHeader(content: string) returns (header: map<string, string>)
    ensures header == FilingHeader(content)
    ensures HeaderBlock(content).None? ==> header == map[]
  {
    var block := HeaderBlock(content);
    if block.None? {
      return map[];
    }
    header := CollectLines(Entry, Split(block.value, '\n'));
  }

  // ---------------------------------------------------------------------
  // Classification
  // ---------------------------------------------------------------------

  /** The ten classification labels. */
  datatype Label =
    | MergerAcquisition | DividendDistribution | StockSplit | SpinOff | Bankruptcy | Delisting
    | MaterialAgreement | OfficerChange | CompletionOfAcquisition | Unclassified

  /** The text of each label. */
  function LabelText(l: Label): string {
    match l
    case MergerAcquisition => "Merger/Acquisition"
    case DividendDistribution => "Dividend/Distribution"
    case StockSplit => "Stock Split"
    case SpinOff => "Spin-Off"
    case Bankruptcy => "Bankruptcy"
    case Delisting => "Delisting"
    case MaterialAgreement => "Material Agreement (e.g., Merger)"
    case OfficerChange => "Director/Officer Change"
    case CompletionOfAcquisition => "Completion of Acquisition/Disposition"
    case Unclassified => "Unclassified"
  }

  const MergerWords: seq<string> := ["merger", "acquisition", "acquire", "combination"]
  const DividendWords: seq<string> := ["dividend", "distribution"]
  const SplitWords: seq<string> := ["split", "reverse stock split"]
  const SpinOffWords: seq<string> := ["spin-off", "spinoff"]
  const BankruptcyWords: seq<string> := ["bankruptcy"]
  const DelistingWords: seq<string> := ["delisting"]

  /** The keyword rules, in the order they are tried: any keyword of the list gives the label. */
  const KeywordRules: seq<(seq<string>, Label)> := [
    (MergerWords, MergerAcquisition),
    (DividendWords, DividendDistribution),
    (SplitWords, StockSplit),
    (SpinOffWords, SpinOff),
    (BankruptcyWords, Bankruptcy),
    (DelistingWords, Delisting)
  ]

  /** The item-code fallbacks, in the order they are tried. */
  const ItemRules: seq<(string, Label)> := [
    ("1.01", MaterialAgreement),
    ("5.02", OfficerChange),
    ("2.01", CompletionOfAcquisition)
  ]

  /** `any(keyword in text for keyword in words)` */
  predicate Mentions(text: string, words: seq<string>) {
    words != [] && (Contains(text, words[0]) || Mentions(text, words[1..]))
  }

  /** `Mentions` is "some keyword occurs in the text". */
  lemma {:induction false} MentionsIff(text: string, words: seq<string>)
    ensures Mentions(text, words) <==> exists i :: 0 <= i < |words| && Contains(text, words[i])
  {
    if words != [] {
      MentionsIff(text, words[1..]);
      assert forall i :: 1 <= i < |words| ==> words[1..][i - 1] == words[i];
    }
  }

  /** `item\s+<code>` matches at `i`; the code starts with a digit, so the whitespace run is maximal. */
  predicate ItemCodeAt(s: string, code: string, i: int) {
    && OccursAt(s, "item", i)
    && var j := SpaceRunEnd(s, i + 4);
       j > i + 4 && OccursAt(s, code, j)
  }

  /** `re.search(r'item\s+<code>', s)` from position `from` on. */
  function HasItemCode(s: string, code: string, from: nat): (r: bool)
    ensures r <==> exists i :: from <= i && ItemCodeAt(s, code, i)
    decreases |s| - from
  {
    if from + 4 > |s| then false
    else if ItemCodeAt(s, code, from) then true
    else HasItemCode(s, code, from + 1)
  }

  predicate MentionsItem(text: string, code: string) {
    HasItemCode(text, code, 0)
  }

  /** The label of the first keyword rule some keyword of which occurs in the text. */
  function FirstKeywordRule(text: string, rules: seq<(seq<string>, Label)>): (r: Option<Label>)
    ensures r.None? <==> forall k :: 0 <= k < |rules| ==> !Mentions(text, rules[k].0)
    ensures r.Some? ==> exists k :: (0 <= k < |rules| && Mentions(text, rules[k].0) && r.value == rules[k].1
      && forall j :: 0 <= j < k ==> !Mentions(text, rules[j].0))
  {
    if rules == [] then None
    else if Mentions(text, rules[0].0) then Some(rules[0].1)
    else
      var r := FirstKeywordRule(text, rules[1..]);
      assert forall k :: 1 <= k < |rules| ==> rules[1..][k - 1] == rules[k];
      if r.Some? then
        var k :| 0 <= k < |rules[1..]| && Mentions(text, rules[1..][k].0) && r.value == rules[1..][k].1
          && forall j :: 0 <= j < k ==> !Mentions(text, rules[1..][j].0);
        assert forall j :: 0 <= j < k + 1 ==> !Mentions(text, rules[j].0) by {
          forall j | 0 <= j < k + 1 ensures !Mentions(text, rules[j].0) {
            if j > 0 { assert rules[j] == rules[1..][j - 1]; }
          }
        }
        r
      else r
  }

  /** The label of the first item rule whose code follows `item` in the text. */
  function FirstItemRule(text: string, rules: seq<(string, Label)>): (r: Option<Label>)
    ensures r.None? <==> forall k :: 0 <= k < |rules| ==> !MentionsItem(text, rules[k].0)
    ensures r.Some? ==> exists k :: (0 <= k < |rules| && MentionsItem(text, rules[k].0) && r.value == rules[k].1
      && forall j :: 0 <= j < k ==> !MentionsItem(text, rules[j].0))
  {
    if rules == [] then None
    else if MentionsItem(text, rules[0].0) then Some(rules[0].1)
    else
      var r := FirstItemRule(text, rules[1..]);
      assert forall k :: 1 <= k < |rules| ==> rules[1..][k - 1] == rules[k];
      if r.Some? then
        var k :| 0 <= k < |rules[1..]| && MentionsItem(text, rules[1..][k].0) && r.value == rules[1..][k].1
          && forall j :: 0 <= j < k ==> !MentionsItem(text, rules[1..][j].0);
        assert forall j :: 0 <= j < k + 1 ==> !MentionsItem(text, rules[j].0) by {
          forall j | 0 <= j < k + 1 ensures !MentionsItem(text, rules[j].0) {
            if j > 0 { assert rules[j] == rules[1..][j - 1]; }
          }
        }
        r
      else r
  }

  /** Keyword rules first, then item-code rules, then `Unclassified`. */
  function ClassifyWith(text: string, keywordRules: seq<(seq<string>, Label)>, itemRules: seq<(string, Label)>): Label {
    match FirstKeywordRule(text, keywordRules)
    case Some(l) => l
    case None =>
      match FirstItemRule(text, itemRules)
      case Some(l) => l
      case None => Unclassified
  }

  /** `classify_action_type`: the rules above, on the lower-cased text. */
  function Classify(content: string): Label {
    ClassifyWith(Lower(content), KeywordRules, ItemRules)
  }

  /** No rule gives `Unclassified`. */
  predicate RulesClassify(keywordRules: seq<(seq<string>, Label)>, itemRules: seq<(string, Label)>) {
    && (forall k :: 0 <= k < |keywordRules| ==> keywordRules[k].1 != Unclassified)
    && (forall k :: 0 <= k < |itemRules| ==> itemRules[k].1 != Unclassified)
  }

  lemma RulesClassifyHold()
    ensures RulesClassify(KeywordRules, ItemRules)
  {
  }

  /** When no rule gives `Unclassified`, it is the result exactly when no rule applies. */
  lemma UnclassifiedWithIff(text: string, keywordRules: seq<(seq<string>, Label)>, itemRules: seq<(string, Label)>)
    requires RulesClassify(keywordRules, itemRules)
    ensures ClassifyWith(text, keywordRules, itemRules) == Unclassified <==>
      (forall k :: 0 <= k < |keywordRules| ==> !Mentions(text, keywordRules[k].0))
      && (forall k :: 0 <= k < |itemRules| ==> !MentionsItem(text, itemRules[k].0))
  {
    var r := FirstKeywordRule(text, keywordRules);
    if r.Some? {
      var k :| 0 <= k < |keywordRules| && Mentions(text, keywordRules[k].0) && r.value == keywordRules[k].1;
      assert keywordRules[k].1 != Unclassified;
    } else {
      var q := FirstItemRule(text, itemRules);
      if q.Some? {
        var k :| 0 <= k < |itemRules| && MentionsItem(text, itemRules[k].0) && q.value == itemRules[k].1;
        assert itemRules[k].1 != Unclassified;
      }
    }
  }

  /**
   * The label is `Unclassified` exactly when no keyword and no item code
   * occurs in the lower-cased text.
   */
  lemma UnclassifiedIff(content: string)
    ensures Classify(content) == Unclassified <==>
      (forall k :: 0 <= k < |KeywordRules| ==> !Mentions(Lower(content), KeywordRules[k].0))
      && (forall k :: 0 <= k < |ItemRules| ==> !MentionsItem(Lower(content), ItemRules[k].0))
  {
    RulesClassifyHold();
    UnclassifiedWithIff(Lower(content), KeywordRules, ItemRules);
  }

  /**
   * The first keyword rule that matches decides the label, whatever later
   * rules would say.
   */
  lemma ClassifyFirstKeywordRule(content: string, k: nat)
    requires k < |KeywordRules| && Mentions(Lower(content), KeywordRules[k].0)
    requires forall j :: 0 <= j < k ==> !Mentions(Lower(content), KeywordRules[j].0)
    ensures Classify(content) == KeywordRules[k].1
  {
    var r := FirstKeywordRule(Lower(content), KeywordRules);
    var k' :| 0 <= k' < |KeywordRules| && Mentions(Lower(content), KeywordRules[k'].0) && r.value == KeywordRules[k'].1
      && forall j :: 0 <= j < k' ==> !Mentions(Lower(content), KeywordRules[j].0);
    assert k' == k;
  }

  /** With no keyword, the first item code that occurs decides the label. */
  lemma ClassifyFirstItemRule(content: string, k: nat)
    requires forall j :: 0 <= j < |KeywordRules| ==> !Mentions(Lower(content), KeywordRules[j].0)
    requires k < |ItemRules| && MentionsItem(Lower(content), ItemRules[k].0)
    requires forall j :: 0 <= j < k ==> !MentionsItem(Lower(content), ItemRules[j].0)
    ensures Classify(content) == ItemRules[k].1
  {
    var r := FirstItemRule(Lower(content), ItemRules);
    var k' :| 0 <= k' < |ItemRules| && MentionsItem(Lower(content), ItemRules[k'].0) && r.value == ItemRules[k'].1
      && forall j :: 0 <= j < k' ==> !MentionsItem(Lower(content), ItemRules[j].0);
    assert k' == k;
  }

  /** Any merger keyword makes a filing a merger, whatever else it mentions. */
  lemma MergerWinsOverAll(content: string)
    requires exists i :: 0 <= i < |MergerWords| && Contains(Lower(content), MergerWords[i])
    ensures Classify(content) == MergerAcquisition
  {
    MentionsIff(Lower(content), MergerWords);
    ClassifyFirstKeywordRule(content, 0);
  }

  /** "reverse stock split" never decides anything "split" has not: the longer keyword is redundant. */
  lemma {:induction false} ReverseSplitRedundant(text: string)
    requires Contains(text, "reverse stock split")
    ensures Contains(text, "split")
  {
    ContainsIff(text, "reverse stock split");
    var i :| OccursAt(text, "reverse stock split", i);
    assert text[i + 14..i + 19] == "reverse stock split"[14..];
    assert OccursAt(text, "split", i + 14);
    ContainsIff(text, "split");
  }

  lemma LowerIdempotent(s: string)
    ensures Lower(Lower(s)) == Lower(s)
  {
  }

  lemma LowerOfUpper(s: string)
    ensures Lower(Upper(s)) == Lower(s)
  {
  }

  /** Classification ignores letter case. */
  lemma ClassifyIgnoresCase(content: string)
    ensures Classify(Upper(content)) == Classify(content)
    ensures Classify(Lower(content)) == Classify(content)
  {
    LowerOfUpper(content);
    LowerIdempotent(content);
  }
}
