/** The pure part of the repository's markdown link checker: sorting the
    links of one README into skipped, external and internal ones, resolving
    internal links against the repository root or the README's directory,
    dropping `#fragment`s before the existence test, the report's counts and
    rates, and the exit status of `main`. The filesystem test and the HTTP
    request are oracles passed in as functions. */
module LinkChecker {
  import opened Options
  import opened Seqs
  import opened Strings

  /** A web link found in `file`. */
  datatype External = External(file: string, url: string)

  /** A local link found in `file`, with the path it resolves to. */
  datatype Internal = Internal(file: string, link: string, resolved: string)

  /** What a HEAD request produced: a status line, or a raised
      `RequestException` with its message. */
  datatype Response = Status(code: int) | Raised(message: string)

  datatype BrokenInternal = BrokenInternal(file: string, link: string, path: string)
  datatype BrokenExternal = BrokenExternal(file: string, url: string, failure: Response)

  /** The checker object: its root and its four lists. */
  datatype Checker = Checker(
    root: string,
    internal: seq<Internal>,
    external: seq<External>,
    brokenInternal: seq<BrokenInternal>,
    brokenExternal: seq<BrokenExternal>)

  function NewChecker(root: string): (c: Checker)
    ensures c.root == root
    ensures c.internal == [] && c.external == []
    ensures c.brokenInternal == [] && c.brokenExternal == []
  {
    Checker(root, [], [], [], [])
  }

  // ---------------------------------------------------------------------
  // Paths (a string-level reading of `pathlib`)
  // ---------------------------------------------------------------------

  /** Index of the last `/` in `p`, if any. */
  function LastSlash(p: string): (r: Option<nat>)
    ensures r == None <==> '/' !in p
    ensures r.Some? ==> r.value < |p| && p[r.value] == '/' && '/' !in p[r.value + 1..]
    decreases |p|
  {
    if p == [] then None
    else if p[|p| - 1] == '/' then Some(|p| - 1)
    else
      var r := LastSlash(p[..|p| - 1]);
      assert p == p[..|p| - 1] + [p[|p| - 1]];
      if r.Some? then
        assert p[r.value + 1..] == p[..|p| - 1][r.value + 1..] + [p[|p| - 1]];
        r
      else r
  }

  /** `Path(p).parent`: `.` for a bare name, `/` for a name directly under
      the filesystem root, otherwise everything before the last `/`. */
  function Parent(p: string): (r: string)
    ensures '/' !in p ==> r == "."
    ensures '/' in p ==> r == "/" || (StartsWith(p, r + "/") && '/' !in p[|r| + 1..])
  {
    match LastSlash(p)
    case None => "."
    case Some(k) =>
      if k == 0 then "/"
      else
        assert p[..k] + "/" == p[..k + 1];
        p[..k]
  }

  /** `Path(dir) / rel` for a relative `rel`: an empty `rel` names `dir`
      itself and `.` disappears in front of a name. */
  function Join(dir: string, rel: string): (r: string)
    ensures rel == "" ==> r == dir
    ensures rel != "" ==> |rel| <= |r| && r[|r| - |rel|..] == rel
  {
    if rel == "" then dir
    else if dir == "." then rel
    else if dir != [] && dir[|dir| - 1] == '/' then dir + rel
    else dir + "/" + rel
  }

  // ---------------------------------------------------------------------
  // Categorising
  // ---------------------------------------------------------------------

  /** In-page anchors and mail addresses are not checked at all. */
  predicate IsSkipped(link: string) {
    StartsWith(link, "#") || StartsWith(link, "mailto:")
  }

  predicate IsWeb(link: string) {
    !IsSkipped(link) && (StartsWith(link, "http://") || StartsWith(link, "https://"))
  }

  predicate IsLocal(link: string) {
    !IsSkipped(link) && !IsWeb(link)
  }

  /** Where an internal link points: a leading-`/` link is taken from the
      repository root with all its leading slashes removed, any other link
      from the directory holding the README. */
  function Resolve(root: string, file: string, link: string): (r: string)
    ensures StartsWith(link, "/") && LStrip(link, '/') != "" ==>
              |LStrip(link, '/')| <= |r| && r[|r| - |LStrip(link, '/')|..] == LStrip(link, '/')
    ensures !StartsWith(link, "/") && link != "" ==> |link| <= |r| && r[|r| - |link|..] == link
  {
    if StartsWith(link, "/") then Join(root, LStrip(link, '/'))
    else Join(Parent(file), link)
  }

  /** One iteration of `categorize_links`. */
  function CategorizeOne(c: Checker, file: string, link: string): Checker {
    if IsSkipped(link) then c
    else if IsWeb(link) then c.(external := c.external + [External(file, link)])
    else c.(internal := c.internal + [Internal(file, link, Resolve(c.root, file, link))])
  }

  /** `categorize_links(links, file)`: the links in order, each appended to
      the list it belongs to. Nothing already in the lists changes. */
  function Categorize(c: Checker, file: string, links: seq<string>): (r: Checker)
    ensures r.root == c.root
    ensures r.brokenInternal == c.brokenInternal && r.brokenExternal == c.brokenExternal
    ensures |c.internal| <= |r.internal| && r.internal[..|c.internal|] == c.internal
    ensures |c.external| <= |r.external| && r.external[..|c.external|] == c.external
    decreases |links|
  {
    if links == [] then c
    else Categorize(CategorizeOne(c, file, links[0]), file, links[1..])
  }

  /** Reference definition of the external entries a README contributes:
      its web links, in order, paired with the file. */
  function WebEntries(file: string, urls: seq<string>): (r: seq<External>)
    ensures |r| == |urls|
    ensures forall i :: 0 <= i < |r| ==> r[i] == External(file, urls[i])
  {
    if urls == [] then [] else [External(file, urls[0])] + WebEntries(file, urls[1..])
  }

  /** Reference definition of the internal entries a README contributes. */
  function LocalEntries(root: string, file: string, links: seq<string>): (r: seq<Internal>)
    ensures |r| == |links|
    ensures forall i :: 0 <= i < |r| ==> r[i] == Internal(file, links[i], Resolve(root, file, links[i]))
  {
    if links == [] then [] else [Internal(file, links[0], Resolve(root, file, links[0]))] + LocalEntries(root, file, links[1..])
  }

  /** The loop of `categorize_links` equals "filter, then map" on the
      external list: it gains exactly the web links, in input order. */
  lemma {:induction false} CategorizeExternal(c: Checker, file: string, links: seq<string>)
    ensures Categorize(c, file, links).external == c.external + WebEntries(file, Select(links, IsWeb))
    decreases |links|
  {
    if links != [] {
      var c1 := CategorizeOne(c, file, links[0]);
      CategorizeExternal(c1, file, links[1..]);
      var rest := Select(links[1..], IsWeb);
      if IsWeb(links[0]) {
        assert Select(links, IsWeb) == [links[0]] + rest;
        assert WebEntries(file, [links[0]] + rest) == [External(file, links[0])] + WebEntries(file, rest);
      } else {
        assert Select(links, IsWeb) == rest;
        assert c1.external == c.external;
      }
    }
  }

  /** The same on the internal list: it gains exactly the local links, in
      input order, each with its resolved path. */
  lemma {:induction false} CategorizeInternal(c: Checker, file: string, links: seq<string>)
    ensures Categorize(c, file, links).internal == c.internal + LocalEntries(c.root, file, Select(links, IsLocal))
    decreases |links|
  {
    if links != [] {
      var c1 := CategorizeOne(c, file, links[0]);
      CategorizeInternal(c1, file, links[1..]);
      var rest := Select(links[1..], IsLocal);
      if IsLocal(links[0]) {
        assert Select(links, IsLocal) == [links[0]] + rest;
        assert LocalEntries(c.root, file, [links[0]] + rest)
            == [Internal(file, links[0], Resolve(c.root, file, links[0]))] + LocalEntries(c.root, file, rest);
      } else {
        assert Select(links, IsLocal) == rest;
        assert c1.internal == c.internal;
      }
    }
  }

  /** Every link is skipped, external or internal, and exactly one of them. */
  lemma {:induction false} LinksPartition(links: seq<string>)
    ensures Count(links, IsSkipped) + Count(links, IsWeb) + Count(links, IsLocal) == |links|
    decreases |links|
  {
    if links != [] {
      LinksPartition(links[1..]);
    }
  }

  /** Every link that is not skipped lands in exactly one of the two lists. */
  lemma CategorizeCounts(c: Checker, file: string, links: seq<string>)
    ensures var r := Categorize(c, file, links);
      |r.internal| - |c.internal| + |r.external| - |c.external| == |links| - Count(links, IsSkipped)
  {
    CategorizeExternal(c, file, links);
    CategorizeInternal(c, file, links);
    LinksPartition(links);
  }

  /** A root-relative link resolves the same way whatever the README and
      however many slashes it starts with. */
  lemma ResolveFromRoot(root: string, f1: string, f2: string, link: string)
    ensures Resolve(root, f1, "/" + link) == Resolve(root, f2, "//" + link)
  {
    assert StartsWith("/" + link, "/");
    assert StartsWith("//" + link, "/");
    assert ("//" + link)[1..] == "/" + link;
  }

  // ---------------------------------------------------------------------
  // Checking
  // ---------------------------------------------------------------------

  /** The path with its `#fragment` removed, as `str(p).split('#')[0]`. */
  function StripFragment(path: string): (r: string)
    ensures '#' !in r
    ensures |r| <= |path| && r == path[..|r|]
    ensures '#' !in path ==> r == path
  {
    Before(path, '#')
  }

  lemma StripFragmentIdempotent(path: string)
    ensures StripFragment(StripFragment(path)) == StripFragment(path)
  {
  }

  predicate InternalBroken(exists_: string -> bool, l: Internal) {
    !exists_(StripFragment(l.resolved))
  }

  /** A HEAD request fails when it raises or answers 400 or above. */
  predicate Fails(r: Response) {
    r.Raised? || r.code >= 400
  }

  /** The record `check_internal_links` keeps for a missing target. */
  function Missing(l: Internal): BrokenInternal {
    BrokenInternal(l.file, l.link, StripFragment(l.resolved))
  }

  /** The record `check_external_links` keeps for a failed request. */
  function Failed(e: External, head: string -> Response): BrokenExternal {
    BrokenExternal(e.file, e.url, head(e.url))
  }

  function InternalTest(exists_: string -> bool): Internal -> bool {
    (l: Internal) => InternalBroken(exists_, l)
  }

  function ExternalTest(head: string -> Response): External -> bool {
    (e: External) => Fails(head(e.url))
  }

  /** The broken internal links, in order; each recorded path is the one
      looked up, free of any fragment and missing. */
  function BrokenInternals(links: seq<Internal>, exists_: string -> bool): (r: seq<BrokenInternal>)
    ensures |r| == Count(links, InternalTest(exists_))
    ensures forall i :: 0 <= i < |r| ==> '#' !in r[i].path && !exists_(r[i].path)
    decreases |links|
  {
    if links == [] then []
    else if InternalBroken(exists_, links[0]) then [Missing(links[0])] + BrokenInternals(links[1..], exists_)
    else BrokenInternals(links[1..], exists_)
  }

  /** Exactly the internal links whose target is missing are recorded. */
  lemma {:induction false} BrokenInternalsExact(links: seq<Internal>, exists_: string -> bool)
    ensures forall l :: l in links && InternalBroken(exists_, l) ==> Missing(l) in BrokenInternals(links, exists_)
    ensures forall b :: b in BrokenInternals(links, exists_) ==>
              exists l :: l in links && InternalBroken(exists_, l) && b == Missing(l)
    decreases |links|
  {
    if links != [] {
      BrokenInternalsExact(links[1..], exists_);
      var rest := BrokenInternals(links[1..], exists_);
      forall l | l in links && InternalBroken(exists_, l)
        ensures Missing(l) in BrokenInternals(links, exists_)
      {
        if l != links[0] {
          assert l in links[1..];
        }
      }
      forall b | b in BrokenInternals(links, exists_)
        ensures exists l :: l in links && InternalBroken(exists_, l) && b == Missing(l)
      {
        if b in rest {
          var l :| l in links[1..] && InternalBroken(exists_, l) && b == Missing(l);
          assert l in links;
        } else {
          assert links[0] in links;
        }
      }
    }
  }

  function BrokenExternals(links: seq<External>, head: string -> Response): (r: seq<BrokenExternal>)
    ensures |r| == Count(links, ExternalTest(head))
    ensures forall i :: 0 <= i < |r| ==> Fails(r[i].failure)
    decreases |links|
  {
    if links == [] then []
    else if Fails(head(links[0].url)) then [Failed(links[0], head)] + BrokenExternals(links[1..], head)
    else BrokenExternals(links[1..], head)
  }

  /** Exactly the external links whose request fails are recorded, each
      with the response it got. */
  lemma {:induction false} BrokenExternalsExact(links: seq<External>, head: string -> Response)
    ensures forall e :: e in links && Fails(head(e.url)) ==> Failed(e, head) in BrokenExternals(links, head)
    ensures forall b :: b in BrokenExternals(links, head) ==>
              exists e :: e in links && Fails(head(e.url)) && b == Failed(e, head)
    decreases |links|
  {
    if links != [] {
      BrokenExternalsExact(links[1..], head);
      var rest := BrokenExternals(links[1..], head);
      forall e | e in links && Fails(head(e.url))
        ensures Failed(e, head) in BrokenExternals(links, head)
      {
        if e != links[0] {
          assert e in links[1..];
        }
      }
      forall b | b in BrokenExternals(links, head)
        ensures exists e :: e in links && Fails(head(e.url)) && b == Failed(e, head)
      {
        if b in rest {
          var e :| e in links[1..] && Fails(head(e.url)) && b == Failed(e, head);
          assert e in links;
        } else {
          assert links[0] in links;
        }
      }
    }
  }

  /** `check_internal_links`: the fragment-free path of every internal
      link is looked up; the missing ones are recorded. */
  function CheckInternalLinks(c: Checker, exists_: string -> bool): (r: Checker)
    ensures r.internal == c.internal && r.external == c.external && r.brokenExternal == c.brokenExternal
    ensures r.brokenInternal == c.brokenInternal + BrokenInternals(c.internal, exists_)
  {
    c.(brokenInternal := c.brokenInternal + BrokenInternals(c.internal, exists_))
  }

  /** `check_external_links`: one HEAD request per external link. */
  function CheckExternalLinks(c: Checker, head: string -> Response): (r: Checker)
    ensures r.internal == c.internal && r.external == c.external && r.brokenInternal == c.brokenInternal
    ensures r.brokenExternal == c.brokenExternal + BrokenExternals(c.external, head)
  {
    c.(brokenExternal := c.brokenExternal + BrokenExternals(c.external, head))
  }

  // ---------------------------------------------------------------------
  // Report and exit status
  // ---------------------------------------------------------------------

  /** The dictionary `generate_report` returns. */
  datatype Report = Report(internalTotal: nat, internalBroken: nat, externalTotal: nat, externalBroken: nat)

  function GenerateReport(c: Checker): (r: Report)
    ensures r.internalTotal == |c.internal| && r.externalTotal == |c.external|
    ensures r.internalBroken == |c.brokenInternal| && r.externalBroken == |c.brokenExternal|
  {
    Report(|c.internal|, |c.brokenInternal|, |c.external|, |c.brokenExternal|)
  }

  /** The "Working" line of the report. */
  function Working(total: nat, broken: nat): int {
    total - broken
  }

  /** A per-kind success rate in percent; an empty kind counts as 100. */
  function SuccessRate(total: nat, broken: nat): (r: real)
    requires broken <= total
    ensures 0.0 <= r <= 100.0
    ensures r == 100.0 <==> broken == 0
    ensures total > 0 && broken == total ==> r == 0.0
  {
    if total > 0 then (total - broken) as real / total as real * 100.0 else 100.0
  }

  /** The overall rate divides by the number of links of both kinds with no
      guard: with no link at all the division raises. */
  function OverallRate(r: Report): (rate: Option<real>)
    requires r.internalBroken <= r.internalTotal && r.externalBroken <= r.externalTotal
    ensures rate == None <==> r.internalTotal + r.externalTotal == 0
    ensures rate.Some? ==> 0.0 <= rate.value <= 100.0
  {
    var total := r.internalTotal + r.externalTotal;
    if total == 0 then None
    else Some((total - r.internalBroken - r.externalBroken) as real / total as real * 100.0)
  }

  /** How a run of `main` ends. */
  datatype Outcome = Crashed | Exited(code: int)

  /** Every README in the order the search produced them, with the links
      extracted from it. */
  function CategorizeAll(c: Checker, readmes: seq<(string, seq<string>)>): (r: Checker)
    ensures r.root == c.root
    ensures r.brokenInternal == c.brokenInternal && r.brokenExternal == c.brokenExternal
    decreases |readmes|
  {
    if readmes == [] then c
    else CategorizeAll(Categorize(c, readmes[0].0, readmes[0].1), readmes[1..])
  }

  /** `main`: categorise, check both kinds, report; exit with 1 when a
      link is broken. */
  function Main(root: string, readmes: seq<(string, seq<string>)>, exists_: string -> bool, head: string -> Response): Outcome {
    var c0 := CategorizeAll(NewChecker(root), readmes);
    var c := CheckExternalLinks(CheckInternalLinks(c0, exists_), head);
    var report := GenerateReport(c);
    if report.internalTotal + report.externalTotal == 0 then Crashed
    else if report.internalBroken > 0 || report.externalBroken > 0 then Exited(1)
    else Exited(0)
  }

  /** The broken lists never outgrow the lists they come from. */
  lemma {:induction false} BrokenBounded(c: Checker, exists_: string -> bool, head: string -> Response)
    requires c.brokenInternal == [] && c.brokenExternal == []
    ensures var r := GenerateReport(CheckExternalLinks(CheckInternalLinks(c, exists_), head));
      r.internalBroken <= r.internalTotal && r.externalBroken <= r.externalTotal
  {
    SelectShrinks(c.internal, InternalTest(exists_));
    SelectShrinks(c.external, ExternalTest(head));
  }

  predicate SomeMissing(links: seq<Internal>, exists_: string -> bool) {
    exists l :: l in links && InternalBroken(exists_, l)
  }

  predicate SomeFailing(links: seq<External>, head: string -> Response) {
    exists e :: e in links && Fails(head(e.url))
  }

  lemma MissingRecorded(links: seq<Internal>, exists_: string -> bool)
    ensures BrokenInternals(links, exists_) != [] <==> SomeMissing(links, exists_)
  {
    var s := Select(links, InternalTest(exists_));
    if s != [] {
      assert s[0] in s;
    }
    if SomeMissing(links, exists_) {
      var l :| l in links && InternalBroken(exists_, l);
      assert l in s;
    }
  }

  lemma FailingRecorded(links: seq<External>, head: string -> Response)
    ensures BrokenExternals(links, head) != [] <==> SomeFailing(links, head)
  {
    var s := Select(links, ExternalTest(head));
    if s != [] {
      assert s[0] in s;
    }
    if SomeFailing(links, head) {
      var e :| e in links && Fails(head(e.url));
      assert e in s;
    }
  }

  /** The exit status: a run with no link at all crashes in the report,
      otherwise `main` returns 1 exactly when some internal link's path is
      missing or some external request fails, and 0 when none is. */
  lemma MainExitStatus(root: string, readmes: seq<(string, seq<string>)>, exists_: string -> bool, head: string -> Response)
    ensures var c := CategorizeAll(NewChecker(root), readmes);
      var outcome := Main(root, readmes, exists_, head);
      && (outcome == Crashed <==> c.internal == [] && c.external == [])
      && (outcome == Exited(1) <==>
            (c.internal != [] || c.external != []) &&
            (SomeMissing(c.internal, exists_) || SomeFailing(c.external, head)))
      && (outcome == Exited(0) <==>
            (c.internal != [] || c.external != []) &&
            !SomeMissing(c.internal, exists_) && !SomeFailing(c.external, head))
  {
    var c := CategorizeAll(NewChecker(root), readmes);
    MissingRecorded(c.internal, exists_);
    FailingRecorded(c.external, head);
  }
}
