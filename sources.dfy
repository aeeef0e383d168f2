/** The sources table (lib/source.rb): one row per rate provider, its
    validation on save, and the two lookups the quote engine makes. */
module Sources {
  import opened Wrappers

  /** A row of `sources`: the provider's code (primary key), its display name
      and the currency its rates are anchored to. A nil code or name is
      written "" here: presence and format validation treat the two alike. */
  datatype Source = Source(code: string, name: string, baseCurrency: Option<string>)

  // ---------------------------------------------------------------------
  // Validation
  // ---------------------------------------------------------------------

  /** The characters `String#strip` removes. */
  predicate IsWhitespace(c: char) {
    c == ' ' || c == '\t' || c == '\n' || c == '\U{0B}' || c == '\U{0C}' || c == '\r' || c == '\0'
  }

  /** Sequel's notion of a blank string value: nothing left after stripping. */
  predicate Blank(s: string) {
    forall i :: 0 <= i < |s| ==> IsWhitespace(s[i])
  }

  predicate IsUpper(c: char) {
    'A' <= c <= 'Z'
  }

  predicate AllUpper(s: string) {
    forall i :: 0 <= i < |s| ==> IsUpper(s[i])
  }

  /** The whole code is 2 to 10 letters A-Z: what the format rule is meant to
      accept, and what the rest of this model uses. */
  predicate CodeFormat(code: string) {
    2 <= |code| <= 10 && AllUpper(code)
  }

  /** Some other row already uses `code`. */
  predicate Taken(code: string, others: seq<Source>) {
    exists i :: 0 <= i < |others| && others[i].code == code
  }

  datatype Failure = CodeMissing | NameMissing | CodeTaken | CodeMalformed

  /** The errors `validate` records for `src`, given the rows `others` already
      stored: presence of code and name, uniqueness of the code (checked only
      when the code has no error yet), then the code's format. */
  function Failures(src: Source, others: seq<Source>): (r: seq<Failure>)
    ensures r == [] <==>
      !Blank(src.name) && CodeFormat(src.code) &&
      forall i :: 0 <= i < |others| ==> others[i].code != src.code
    ensures CodeMissing in r <==> Blank(src.code)
    ensures NameMissing in r <==> Blank(src.name)
    ensures CodeTaken in r <==> !Blank(src.code) && Taken(src.code, others)
    ensures CodeMalformed in r <==> !CodeFormat(src.code)
  {
    assert CodeFormat(src.code) ==> !IsWhitespace(src.code[0]);
    (if Blank(src.code) then [CodeMissing] else []) +
    (if Blank(src.name) then [NameMissing] else []) +
    (if !Blank(src.code) && Taken(src.code, others) then [CodeTaken] else []) +
    (if CodeFormat(src.code) then [] else [CodeMalformed])
  }

  /** Rows saved one after another, each valid against those before it,
      never share a code. */
  lemma {:induction false} SavedCodesDistinct(registry: seq<Source>)
    requires forall n :: 0 <= n < |registry| ==> Failures(registry[n], registry[..n]) == []
    ensures forall i, j :: 0 <= i < j < |registry| ==> registry[i].code != registry[j].code
    ensures forall i :: 0 <= i < |registry| ==> CodeFormat(registry[i].code)
  {
    forall i, j | 0 <= i < j < |registry|
      ensures registry[i].code != registry[j].code
    {
      assert Failures(registry[j], registry[..j]) == [];
      assert registry[..j][i] == registry[i];
    }
    forall i | 0 <= i < |registry|
      ensures CodeFormat(registry[i].code)
    {
      assert Failures(registry[i], registry[..i]) == [];
    }
  }

  // ---------------------------------------------------------------------
  // The format rule as written: Ruby's ^ and $ anchor at line boundaries
  // ---------------------------------------------------------------------

  /** Ruby's `^` holds at the start of the string and just after a line feed. */
  predicate LineStart(s: string, i: int)
    requires 0 <= i <= |s|
  {
    i == 0 || s[i - 1] == '\n'
  }

  /** Ruby's `$` holds at the end of the string and just before a line feed. */
  predicate LineEnd(s: string, j: int)
    requires 0 <= j <= |s|
  {
    j == |s| || s[j] == '\n'
  }

  /** `/^[A-Z]{2,10}$/.match(s)` with Ruby's line anchors: some whole line of
      `s` is 2 to 10 letters A-Z. */
  predicate MatchesAsWritten(s: string) {
    exists i, j :: 0 <= i <= j <= |s| && LineStart(s, i) && LineEnd(s, j) &&
      2 <= j - i <= 10 && AllUpper(s[i..j])
  }

  /** Every code the intended rule accepts, the written rule accepts too. */
  lemma CodeFormatMatchesAsWritten(s: string)
    requires CodeFormat(s)
    ensures MatchesAsWritten(s)
  {
    assert s[0..|s|] == s;
    assert LineStart(s, 0) && LineEnd(s, |s|);
  }

  /** On a code without a line feed the written rule is the intended one. */
  lemma SingleLineAgrees(s: string)
    requires '\n' !in s
    ensures MatchesAsWritten(s) <==> CodeFormat(s)
  {
    if MatchesAsWritten(s) {
      var i, j :| 0 <= i <= j <= |s| && LineStart(s, i) && LineEnd(s, j) &&
        2 <= j - i <= 10 && AllUpper(s[i..j]);
      assert i == 0 && j == |s|;
      assert s[i..j] == s;
    } else if CodeFormat(s) {
      CodeFormatMatchesAsWritten(s);
    }
  }

  /** A code with a second line slips through the written rule although it is
      not 2 to 10 capital letters. */
  lemma MultilineCodeAccepted()
    ensures MatchesAsWritten("x\nECB") && !CodeFormat("x\nECB")
  {
    var s := "x\nECB";
    assert LineStart(s, 2) && LineEnd(s, 5);
    assert AllUpper(s[2..5]);
    assert !IsUpper(s[0]);
  }

  // ---------------------------------------------------------------------
  // The lookups the quote engine makes
  // ---------------------------------------------------------------------

  /** Some row has primary key `code`. */
  predicate Registered(registry: seq<Source>, code: string) {
    exists i :: 0 <= i < |registry| && registry[i].code == code
  }

  /** `Source[code]`: the row whose primary key is `code`, nil if there is none. */
  function FindByCode(registry: seq<Source>, code: string): (r: Option<Source>)
    ensures r.Some? <==> Registered(registry, code)
    ensures r.Some? ==> r.value in registry && r.value.code == code
  {
    if registry == [] then None
    else if registry[0].code == code then Some(registry[0])
    else
      var r := FindByCode(registry[1..], code);
      assert Registered(registry, code) ==> Registered(registry[1..], code) by {
        if Registered(registry, code) {
          var i :| 0 <= i < |registry| && registry[i].code == code;
          assert registry[1..][i - 1] == registry[i];
        }
      }
      assert r.Some? ==> Registered(registry, code) by {
        if r.Some? {
          var i :| 0 <= i < |registry[1..]| && registry[1..][i].code == code;
          assert registry[i + 1].code == code;
        }
      }
      r
  }

  /** Row `i` is the first anchored to `currency`. */
  predicate FirstAnchored(registry: seq<Source>, currency: string, i: int) {
    0 <= i < |registry| && registry[i].baseCurrency == Some(currency) &&
    forall j :: 0 <= j < i ==> registry[j].baseCurrency != Some(currency)
  }

  /** `Source.first(base_currency: currency)`: the first row anchored to
      `currency`, nil if no row is. */
  function FirstWithBase(registry: seq<Source>, currency: string): (r: Option<Source>)
    ensures r.None? <==> forall i :: 0 <= i < |registry| ==> registry[i].baseCurrency != Some(currency)
    ensures r.Some? ==> exists i :: FirstAnchored(registry, currency, i) && registry[i] == r.value
  {
    if registry == [] then None
    else if registry[0].baseCurrency == Some(currency) then
      assert FirstAnchored(registry, currency, 0);
      Some(registry[0])
    else
      var r := FirstWithBase(registry[1..], currency);
      assert r.Some? ==> exists i :: FirstAnchored(registry, currency, i) && registry[i] == r.value by {
        if r.Some? {
          var i :| FirstAnchored(registry[1..], currency, i) && registry[1..][i] == r.value;
          assert FirstAnchored(registry, currency, i + 1);
        }
      }
      assert r.None? ==> forall i :: 0 <= i < |registry| ==> registry[i].baseCurrency != Some(currency) by {
        if r.None? {
          forall i | 0 <= i < |registry| ensures registry[i].baseCurrency != Some(currency) {
            if i > 0 {
              assert registry[i] == registry[1..][i - 1];
            }
          }
        }
      }
      r
  }

  /** The first anchored row is unique. */
  lemma FirstAnchoredUnique(registry: seq<Source>, currency: string, i: int, j: int)
    requires FirstAnchored(registry, currency, i) && FirstAnchored(registry, currency, j)
    ensures i == j
  {
  }
}
