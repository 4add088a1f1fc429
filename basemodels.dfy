/** The abstract `BaseModel` shared by categories and subcategories:
    the slug validator, `__str__` and the declared default ordering. */
module BaseModels {
  import opened Wrappers

  // ---------------------------------------------------------------- slug

  /** One character of the class `[-a-zA-Z0-9_]` (ASCII only). */
  predicate IsSlugChar(c: char) {
    ('a' <= c <= 'z') || ('A' <= c <= 'Z') || ('0' <= c <= '9') || c == '-' || c == '_'
  }

  /** A proper slug: non-empty, slug characters only (`^[-a-zA-Z0-9_]+\Z`, the
      validator Django's `SlugField` carries by default). */
  predicate IsSlug(s: string) {
    |s| > 0 && forall i :: 0 <= i < |s| ==> IsSlugChar(s[i])
  }

  /** Length of the longest run of slug characters at the start of `s`:
      what the greedy `[-a-zA-Z0-9_]+` consumes. */
  function SlugRun(s: string): (k: nat)
    ensures k <= |s|
    ensures forall i :: 0 <= i < k ==> IsSlugChar(s[i])
    ensures k < |s| ==> !IsSlugChar(s[k])
    decreases |s|
  {
    if s == [] || !IsSlugChar(s[0]) then 0 else 1 + SlugRun(s[1..])
  }

  /** `re.search(r'^[-a-zA-Z0-9_]+$', s)` as Python evaluates it: `^` anchors at
      the start, the class is matched greedily, and `$` succeeds at the end of the
      string or just before a newline that ends it. Backtracking cannot help:
      a shorter run ends before a slug character, which is neither the end nor
      a final newline. */
  predicate SlugRegexMatches(s: string) {
    var k := SlugRun(s);
    k >= 1 && (k == |s| || (k == |s| - 1 && s[k] == '\n'))
  }

  /** The regular expression accepts exactly the proper slugs and the proper
      slugs followed by one newline. */
  lemma SlugRegexMatchesIff(s: string)
    ensures SlugRegexMatches(s) <==>
            IsSlug(s) || (|s| >= 2 && s[|s| - 1] == '\n' && IsSlug(s[..|s| - 1]))
  {
    var k := SlugRun(s);
    if SlugRegexMatches(s) && k < |s| {
      var t := s[..|s| - 1];
      forall i | 0 <= i < |t| ensures IsSlugChar(t[i]) {
        assert t[i] == s[i];
      }
    }
    if IsSlug(s) {
      assert k == |s|;
    }
    if |s| >= 2 && s[|s| - 1] == '\n' && IsSlug(s[..|s| - 1]) {
      var t := s[..|s| - 1];
      forall i | 0 <= i < |t| ensures IsSlugChar(s[i]) {
        assert t[i] == s[i];
      }
      assert !IsSlugChar(s[|s| - 1]);
      assert k == |s| - 1;
    }
  }

  /** On its own, the RegexValidator admits a slug with a trailing newline;
      it is the field's built-in validator that keeps it out. */
  lemma SlugRegexAdmitsTrailingNewline()
    ensures SlugRegexMatches("a\n") && !IsSlug("a\n")
  {
    assert SlugRun("a\n") == 1 by {
      assert "a\n"[1..] == "\n";
      assert SlugRun("\n") == 0;
    }
  }

  /** A nullable slug column (`null=True`): the database column admits NULL,
      and the field's validators skip it. It is the column, not model
      validation, that admits a null slug: `full_clean` and the admin form
      refuse it, because `blank=False`. A present value passes the field's
      validators: the RegexValidator and the built-in slug validator. */
  predicate SlugFieldValid(slug: Option<string>) {
    match slug
    case None => true
    case Some(s) => SlugRegexMatches(s) && IsSlug(s)
  }

  /** A null slug is admitted; a present slug is admitted exactly when it is
      non-empty and made of ASCII letters, digits, `-` and `_`. */
  lemma SlugFieldValidIff(slug: Option<string>)
    ensures slug.None? ==> SlugFieldValid(slug)
    ensures slug.Some? ==> (SlugFieldValid(slug) <==> IsSlug(slug.value))
  {
    if slug.Some? {
      SlugRegexMatchesIff(slug.value);
    }
  }

  // ---------------------------------------------------------------- __str__

  function Min(a: int, b: int): int { if a <= b then a else b }

  /** `name[:symbolsQuantity]`, with Python's slice rule for a negative bound
      (it counts from the end). `symbolsQuantity` is a deployment setting. */
  function Str(name: string, symbolsQuantity: int): (r: string)
    ensures r <= name
    ensures symbolsQuantity >= 0 ==> |r| == Min(|name|, symbolsQuantity)
    ensures symbolsQuantity < 0 ==> |r| == if |name| + symbolsQuantity >= 0 then |name| + symbolsQuantity else 0
  {
    var n := if symbolsQuantity >= 0 then Min(|name|, symbolsQuantity)
             else if |name| + symbolsQuantity >= 0 then |name| + symbolsQuantity else 0;
    name[..n]
  }

  /** A name no longer than the bound is shown whole, and shortening is idempotent. */
  lemma StrShortAndIdempotent(name: string, symbolsQuantity: nat)
    ensures Str(name, symbolsQuantity) == name <==> |name| <= symbolsQuantity
    ensures Str(Str(name, symbolsQuantity), symbolsQuantity) == Str(name, symbolsQuantity)
  {
  }

  // ---------------------------------------------------------------- ordering

  /** A row of a `BaseModel` table (category or subcategory). */
  datatype CatalogEntry = CatalogEntry(name: string, slug: Option<string>)

  /** Lexicographic order on names, character by character (code points). */
  predicate NameLe(a: string, b: string)
    decreases |a|
  {
    a == [] || (b != [] && (a[0] < b[0] || (a[0] == b[0] && NameLe(a[1..], b[1..]))))
  }

  lemma {:induction false} NameLeTotal(a: string, b: string)
    ensures NameLe(a, b) || NameLe(b, a)
    decreases |a|
  {
    if a != [] && b != [] && a[0] == b[0] {
      NameLeTotal(a[1..], b[1..]);
    }
  }

  lemma {:induction false} NameLeTrans(a: string, b: string, c: string)
    requires NameLe(a, b) && NameLe(b, c)
    ensures NameLe(a, c)
    decreases |a|
  {
    if a != [] && b != [] && c != [] && a[0] == b[0] && b[0] == c[0] {
      NameLeTrans(a[1..], b[1..], c[1..]);
    }
  }

  predicate SortedByName(s: seq<CatalogEntry>) {
    forall i, j :: 0 <= i < j < |s| ==> NameLe(s[i].name, s[j].name)
  }

  /** A category or subcategory listing as the code produces it. Each subclass
      declares its own `class Meta` without extending `BaseModel.Meta`, so the
      base's `ordering = ('name',)` is not inherited and the query has no
      ORDER BY: rows come back in the database's order, here the table order. */
  function ListingAsWritten(table: seq<CatalogEntry>): (r: seq<CatalogEntry>)
    ensures multiset(r) == multiset(table)
  {
    table
  }

  /** A listing as written need not be ordered by name. */
  lemma ListingAsWrittenUnordered()
    ensures !SortedByName(ListingAsWritten([CatalogEntry("b", None), CatalogEntry("a", None)]))
  {
    var s := ListingAsWritten([CatalogEntry("b", None), CatalogEntry("a", None)]);
    assert s[0].name == "b" && s[1].name == "a";
    assert !NameLe("b", "a");
  }

  /** Insert `x` into a listing already ordered by name. */
  function InsertByName(x: CatalogEntry, s: seq<CatalogEntry>): (r: seq<CatalogEntry>)
    requires SortedByName(s)
    ensures SortedByName(r)
    ensures multiset(r) == multiset(s) + multiset{x}
    decreases |s|
  {
    if s == [] then [x]
    else if NameLe(x.name, s[0].name) then
      InsertFrontSorted(x, s);
      [x] + s
    else
      var rest := InsertByName(x, s[1..]);
      InsertAfterHeadSorted(x, s, rest);
      assert s == [s[0]] + s[1..];
      [s[0]] + rest
  }

  lemma InsertFrontSorted(x: CatalogEntry, s: seq<CatalogEntry>)
    requires SortedByName(s) && s != [] && NameLe(x.name, s[0].name)
    ensures SortedByName([x] + s)
  {
    var t := [x] + s;
    forall i, j | 0 <= i < j < |t| ensures NameLe(t[i].name, t[j].name) {
      if i == 0 && j > 1 {
        NameLeTrans(x.name, s[0].name, s[j - 1].name);
      }
    }
  }

  lemma InsertAfterHeadSorted(x: CatalogEntry, s: seq<CatalogEntry>, rest: seq<CatalogEntry>)
    requires SortedByName(s) && s != [] && !NameLe(x.name, s[0].name)
    requires SortedByName(rest) && multiset(rest) == multiset(s[1..]) + multiset{x}
    ensures SortedByName([s[0]] + rest)
  {
    NameLeTotal(x.name, s[0].name);
    var t := [s[0]] + rest;
    forall j | 0 <= j < |rest| ensures NameLe(s[0].name, rest[j].name) {
      assert rest[j] in multiset(rest);
      if rest[j] != x {
        assert rest[j] in multiset(s[1..]);
        var k :| 0 <= k < |s[1..]| && s[1..][k] == rest[j];
        assert s[k + 1] == rest[j];
      }
    }
    forall i, j | 0 <= i < j < |t| ensures NameLe(t[i].name, t[j].name) {
      if i > 0 {
        assert t[i] == rest[i - 1] && t[j] == rest[j - 1];
      } else {
        assert t[j] == rest[j - 1];
      }
    }
  }

  /** The listing the base model declares: ordered by name ascending, and a
      permutation of the table. */
  function OrderedByName(table: seq<CatalogEntry>): (r: seq<CatalogEntry>)
    ensures SortedByName(r)
    ensures multiset(r) == multiset(table)
    decreases |table|
  {
    if table == [] then []
    else
      assert table == [table[0]] + table[1..];
      InsertByName(table[0], OrderedByName(table[1..]))
  }
}
