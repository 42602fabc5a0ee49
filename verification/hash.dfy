/** Record fingerprinting (`lib/state/hash.ts`): the normalisation pipeline,
    the `name|country|industry` key, the hash-keyed index and the
    same-customer test. */
module Hash {
  import opened Text
  import opened Domain
  import opened Keyed

  predicate IsHyphen(c: char) { c == '-' }

  /** Characters `/[^\w\s-]/g` leaves in place. */
  predicate Kept(c: char) { IsWordChar(c) || IsSpace(c) || c == '-' }

  /** Characters a normalised field can contain. */
  predicate NormChar(c: char) {
    IsLower(c) || IsDigit(c) || c == '_' || c == ' ' || c == '-'
  }

  predicate NoDoubleHyphen(s: string) {
    forall i :: 0 <= i < |s| - 1 ==> !(s[i] == '-' && s[i + 1] == '-')
  }

  /** `s.replace(/[^\w\s-]/g, "")`. */
  function StripSpecial(s: string): string {
    if s == [] then []
    else (if Kept(s[0]) then [s[0]] else []) + StripSpecial(s[1..])
  }

  lemma {:induction false} StripSpecialKeeps(s: string)
    ensures forall c :: c in StripSpecial(s) ==> c in s && Kept(c)
  {
    if s != [] {
      StripSpecialKeeps(s[1..]);
      assert forall c :: c in s[1..] ==> c in s;
    }
  }

  /** The shape of a normalised field: a small alphabet without `|`, and
      never `--`. */
  predicate NormalForm(s: string) {
    && (forall c :: c in s ==> NormChar(c))
    && NoDoubleHyphen(s)
  }

  /** `normalizeString`: lower-case, trim, collapse whitespace runs to one
      space, strip everything but `\w`, `\s` and `-`, collapse hyphen runs. */
  function Pipeline(s: string): string {
    CollapseRuns(StripSpecial(CollapseRuns(Trim(Lower(s)), IsSpace, ' ')), IsHyphen, '-')
  }

  /** `normalizeString`, with the shape of its result. */
  function Normalize(s: string): (r: string)
    ensures NormalForm(r)
    ensures '|' !in r
  {
    PipelineShape(s);
    Pipeline(s)
  }

  lemma PipelineShape(s: string)
    ensures NormalForm(Pipeline(s))
  {
    var lowered := Lower(s);
    var trimmed := Trim(lowered);
    var spaced := CollapseRuns(trimmed, IsSpace, ' ');
    var stripped := StripSpecial(spaced);
    var r := CollapseRuns(stripped, IsHyphen, '-');
    CollapseRunsChars(trimmed, IsSpace, ' ');
    StripSpecialKeeps(spaced);
    CollapseRunsChars(stripped, IsHyphen, '-');
    CollapseRunsNoAdjacent(stripped, IsHyphen, '-');
    forall c | c in r ensures NormChar(c) {
      if c != '-' {
        assert c in stripped && Kept(c);
        assert c in spaced;
        if c != ' ' {
          assert c in trimmed && !IsSpace(c);
          assert c in lowered;
          assert !IsUpper(c);
        }
      }
    }
    forall i | 0 <= i < |r| - 1 ensures !(r[i] == '-' && r[i + 1] == '-') {
      assert !(IsHyphen(r[i]) && IsHyphen(r[i + 1]));
    }
  }

  /** `generateCustomerHash`. */
  function CustomerHash(c: Customer): string {
    Normalize(c.name) + "|" + Normalize(c.country) + "|" + Normalize(c.industry)
  }

  /** The three normalised identity fields of two customers agree. */
  predicate SameIdentity(a: Customer, b: Customer) {
    && Normalize(a.name) == Normalize(b.name)
    && Normalize(a.country) == Normalize(b.country)
    && Normalize(a.industry) == Normalize(b.industry)
  }

  /** `areCustomersSame`: true exactly when the normalised name, country and
      industry agree pairwise. */
  function AreCustomersSame(a: Customer, b: Customer): (r: bool)
    ensures r <==> SameIdentity(a, b)
  {
    HashInjective(a, b);
    CustomerHash(a) == CustomerHash(b)
  }

  /** The fingerprint splits back into its three normalised fields, in the
      order name, country, industry. */
  lemma HashSplitsIntoFields(c: Customer)
    ensures Split(CustomerHash(c), '|')
         == [Normalize(c.name), Normalize(c.country), Normalize(c.industry)]
  {
    SplitThree(Normalize(c.name), Normalize(c.country), Normalize(c.industry), '|');
  }

  lemma SplitThree(x: string, y: string, z: string, sep: char)
    requires sep !in x && sep !in y && sep !in z
    ensures Split(x + [sep] + y + [sep] + z, sep) == [x, y, z]
  {
    assert x + [sep] + y + [sep] + z == x + [sep] + (y + [sep] + z);
    SplitAtFirstSeparator(x, y + [sep] + z, sep);
    SplitAtFirstSeparator(y, z, sep);
    SplitNoSeparator(z, sep);
  }

  /** Two fingerprints are equal exactly when the normalised fields are. */
  lemma HashInjective(a: Customer, b: Customer)
    ensures CustomerHash(a) == CustomerHash(b) <==> SameIdentity(a, b)
  {
    HashSplitsIntoFields(a);
    HashSplitsIntoFields(b);
  }

  /** Description, detail URL and detection date never enter the key. */
  lemma HashIgnoresNonIdentityFields(c: Customer, description: string, detailUrl: string, detectedDate: string)
    ensures CustomerHash(c.(description := description, detailUrl := detailUrl,
                            detectedDate := detectedDate)) == CustomerHash(c)
  {
  }

  /** Same-customer is an equivalence relation. */
  lemma AreCustomersSameIsEquivalence(a: Customer, b: Customer, c: Customer)
    ensures AreCustomersSame(a, a)
    ensures AreCustomersSame(a, b) ==> AreCustomersSame(b, a)
    ensures AreCustomersSame(a, b) && AreCustomersSame(b, c) ==> AreCustomersSame(a, c)
  {
  }

  /** Strings equal up to ASCII letter case normalise identically. */
  lemma NormalizeIgnoresCase(s: string, t: string)
    requires |s| == |t|
    requires forall i :: 0 <= i < |s| ==> LowerChar(s[i]) == LowerChar(t[i])
    ensures Normalize(s) == Normalize(t)
  {
    assert Lower(s) == Lower(t);
  }

  /** Leading whitespace does not matter. */
  lemma NormalizeIgnoresLeadingSpace(w: string, s: string)
    requires AllSpace(w)
    ensures Normalize(w + s) == Normalize(s)
  {
    LowerAppend(w, s);
    LowerOfSpaces(w);
    TrimStartAppend(w, Lower(s));
  }

  /** Trailing whitespace does not matter. */
  lemma NormalizeIgnoresTrailingSpace(s: string, w: string)
    requires AllSpace(w)
    ensures Normalize(s + w) == Normalize(s)
  {
    var ls := Lower(s);
    LowerAppend(s, w);
    LowerOfSpaces(w);
    TrimStartAppend(ls, w);
    if AllSpace(ls) {
      TrimOfSpaces(ls);
      TrimOfSpaces(w);
      TrimOfSpaces(ls + w);
    } else {
      TrimEndAppend(TrimStart(ls), w);
    }
  }

  lemma TrimOfSpaces(w: string)
    requires AllSpace(w)
    ensures TrimStart(w) == [] && Trim(w) == []
  {
  }

  /** A whitespace run inside a field may be replaced by any other non-empty
      whitespace run: only its presence matters, not its length or kind. */
  lemma NormalizeIgnoresSpaceRunShape(a: string, w1: string, w2: string, b: string)
    requires w1 != [] && AllSpace(w1)
    requires w2 != [] && AllSpace(w2)
    ensures Normalize(a + w1 + b) == Normalize(a + w2 + b)
  {
    var la, lb := Lower(a), Lower(b);
    LowerAroundRun(a, w1, b);
    LowerAroundRun(a, w2, b);
    TrimAroundRun(la, w1, lb);
    TrimAroundRun(la, w2, lb);
    if !AllSpace(la) && !AllSpace(lb) {
      CollapseRunsIgnoresRunShape(TrimStart(la), w1, w2, TrimEnd(lb), IsSpace, ' ');
    }
  }

  lemma LowerAroundRun(a: string, w: string, b: string)
    requires AllSpace(w)
    ensures Lower(a + w + b) == Lower(a) + w + Lower(b)
  {
    LowerAppend(a + w, b);
    LowerAppend(a, w);
    LowerOfSpaces(w);
  }

  /** Where trimming leaves a string that contains the run `w`. */
  lemma TrimAroundRun(x: string, w: string, y: string)
    requires w != [] && AllSpace(w)
    ensures AllSpace(x) ==> Trim(x + w + y) == Trim(y)
    ensures !AllSpace(x) && AllSpace(y) ==> Trim(x + w + y) == Trim(x)
    ensures !AllSpace(x) && !AllSpace(y) ==> Trim(x + w + y) == TrimStart(x) + w + TrimEnd(y)
  {
    if AllSpace(x) {
      TrimAroundRunSpacePrefix(x, w, y);
    } else if AllSpace(y) {
      TrimAroundRunSpaceSuffix(x, w, y);
    } else {
      TrimAroundRunInside(x, w, y);
    }
  }

  lemma TrimAroundRunSpacePrefix(x: string, w: string, y: string)
    requires AllSpace(w) && AllSpace(x)
    ensures Trim(x + w + y) == Trim(y)
  {
    assert AllSpace(x + w);
    TrimStartAppend(x + w, y);
  }

  lemma TrimAroundRunSpaceSuffix(x: string, w: string, y: string)
    requires AllSpace(w) && !AllSpace(x) && AllSpace(y)
    ensures Trim(x + w + y) == Trim(x)
  {
    assert x + w + y == x + (w + y);
    TrimStartAppend(x, w + y);
    assert AllSpace(w + y);
    TrimEndAppend(TrimStart(x), w + y);
  }

  lemma TrimAroundRunInside(x: string, w: string, y: string)
    requires AllSpace(w) && !AllSpace(x) && !AllSpace(y)
    ensures Trim(x + w + y) == TrimStart(x) + w + TrimEnd(y)
  {
    var s := x + w + y;
    var tx := TrimStart(x);
    assert s == x + (w + y);
    TrimStartAppend(x, w + y);
    assert TrimStart(s) == (tx + w) + y;
    TrimEndAppend(tx + w, y);
    assert Trim(s) == TrimEnd(TrimStart(s));
  }

  /** Normalisation is not idempotent: punctuation between two spaces leaves
      a double space, which a second pass collapses. */
  lemma NormalizeNotIdempotent()
    ensures Normalize("a ! b") == "a  b"
    ensures Normalize(Normalize("a ! b")) == "a b"
  {
    FirstPassKeepsDoubleSpace();
    SecondPassCollapsesIt();
  }

  /** The pipeline, stage by stage. */
  lemma PipelineStages(s: string, l: string, t: string, a: string, b: string, c: string)
    requires Lower(s) == l && Trim(l) == t && CollapseRuns(t, IsSpace, ' ') == a
    requires StripSpecial(a) == b && CollapseRuns(b, IsHyphen, '-') == c
    ensures Pipeline(s) == c
  {
  }

  lemma FirstPassKeepsDoubleSpace()
    ensures Pipeline("a ! b") == "a  b"
  {
    LowerBang();
    TrimBang();
    SpacedBang();
    StripBang();
    NoHyphenDoubleSpace();
    PipelineStages("a ! b", "a ! b", "a ! b", "a ! b", "a  b", "a  b");
  }

  lemma LowerBang()
    ensures Lower("a ! b") == "a ! b"
  {
    LowerFixesNonUpper("a ! b");
  }

  lemma NoHyphenDoubleSpace()
    ensures CollapseRuns("a  b", IsHyphen, '-') == "a  b"
  {
    CollapseRunsFixes("a  b", IsHyphen, '-');
  }

  lemma TrimBang()
    ensures Trim("a ! b") == "a ! b"
  {
    assert !IsSpace('a') && !IsSpace('b');
    TrimFixesUnpadded("a ! b");
  }

  lemma SpacedBang()
    ensures CollapseRuns("a ! b", IsSpace, ' ') == "a ! b"
  {
    assert !IsSpace('a') && !IsSpace('b') && IsSpace(' ') && !IsSpace('!');
    CollapseRunsFixes("a ! b", IsSpace, ' ');
  }

  lemma StripBang()
    ensures StripSpecial("a ! b") == "a  b"
  {
    assert !Kept('!') && Kept('a') && Kept('b') && Kept(' ');
    var s := "a ! b";
    assert s[1..] == " ! b" && s[2..] == "! b" && s[3..] == " b" && s[4..] == "b";
  }

  lemma SecondPassCollapsesIt()
    ensures Pipeline("a  b") == "a b"
  {
    LowerDoubleSpace();
    TrimDoubleSpace();
    DoubleSpaceCollapses();
    StripSingleSpace();
    NoHyphenSingleSpace();
    PipelineStages("a  b", "a  b", "a  b", "a b", "a b", "a b");
  }

  lemma LowerDoubleSpace()
    ensures Lower("a  b") == "a  b"
  {
    LowerFixesNonUpper("a  b");
  }

  lemma NoHyphenSingleSpace()
    ensures CollapseRuns("a b", IsHyphen, '-') == "a b"
  {
    CollapseRunsFixes("a b", IsHyphen, '-');
  }

  lemma TrimDoubleSpace()
    ensures Trim("a  b") == "a  b"
  {
    assert !IsSpace('a') && !IsSpace('b');
    TrimFixesUnpadded("a  b");
  }

  lemma DoubleSpaceCollapses()
    ensures CollapseRuns("a  b", IsSpace, ' ') == "a b"
  {
    assert !IsSpace('a');
    assert "a  b"[1..] == "  b";
    SpaceRunCollapses();
  }

  lemma SpaceRunCollapses()
    ensures CollapseRuns("  b", IsSpace, ' ') == " b"
  {
    assert "  b" == [' ', ' ', 'b'] && " b" == [' ', 'b'];
    RunOfTwoCollapses(' ', 'b');
  }

  /** Two class characters before a character outside the class become one
      `rep`. */
  lemma RunOfTwoCollapses(w: char, b: char)
    requires IsSpace(w) && !IsSpace(b)
    ensures CollapseRuns([w, w, b], IsSpace, ' ') == [' ', b]
  {
    var t := [w, b];
    assert [w, w, b] == [w] + t;
    LeadingSpaceCollapses(w, t);
    RunOfOneDropped(w, b);
    SingleKept(b);
  }

  lemma LeadingSpaceCollapses(w: char, t: string)
    requires IsSpace(w)
    ensures CollapseRuns([w] + t, IsSpace, ' ') == [' '] + CollapseRuns(DropRun(t, IsSpace), IsSpace, ' ')
  {
    var x := [w] + t;
    assert x[0] == w && x[1..] == t;
    CollapseRunsAtRun(x, IsSpace, ' ');
  }

  lemma RunOfOneDropped(w: char, b: char)
    requires IsSpace(w) && !IsSpace(b)
    ensures DropRun([w, b], IsSpace) == [b]
  {
    assert [w, b][1..] == [b];
  }

  lemma SingleKept(b: char)
    requires !IsSpace(b)
    ensures CollapseRuns([b], IsSpace, ' ') == [b]
  {
    assert [b][1..] == [];
  }

  lemma StripSingleSpace()
    ensures StripSpecial("a b") == "a b"
  {
    assert Kept('a') && Kept('b') && Kept(' ');
    assert "a b"[1..] == " b" && "a b"[2..] == "b";
  }

  /** The fingerprints of a list of customers. */
  function Fingerprints(cs: seq<Customer>): (r: set<string>)
    ensures |r| <= |cs|
  {
    KeysOf(cs, CustomerHash)
  }

  lemma FingerprintsMembership(cs: seq<Customer>, h: string)
    ensures h in Fingerprints(cs) <==> exists i :: 0 <= i < |cs| && CustomerHash(cs[i]) == h
  {
    KeysOfMembership(cs, CustomerHash, h);
  }

  lemma FingerprintsAppend(xs: seq<Customer>, ys: seq<Customer>)
    ensures Fingerprints(xs + ys) == Fingerprints(xs) + Fingerprints(ys)
  {
    KeysOfAppend(xs, ys, CustomerHash);
  }

  /** `generateCustomerHashes`: a map from fingerprint to customer holding
      one entry per distinct fingerprint. */
  function CustomerIndex(cs: seq<Customer>): (m: map<string, Customer>)
    ensures m.Keys == Fingerprints(cs)
    ensures |m| <= |cs|
  {
    IndexBy(cs, CustomerHash)
  }

  /** When fingerprints collide, the customer stored is the last one. */
  lemma CustomerIndexLastWins(cs: seq<Customer>, i: int)
    requires 0 <= i < |cs|
    requires forall j :: i < j < |cs| ==> CustomerHash(cs[j]) != CustomerHash(cs[i])
    ensures CustomerHash(cs[i]) in CustomerIndex(cs)
    ensures CustomerIndex(cs)[CustomerHash(cs[i])] == cs[i]
  {
    IndexByLastWins(cs, CustomerHash, i);
  }
}
