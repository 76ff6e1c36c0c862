/**
 * The resource feature of the image builder: it collects inclusion
 * patterns until analysis is over, and during each analysis iteration
 * compiles the pending patterns, scans the boot modules and the classpath
 * with them, registers what they select, and asks for another iteration.
 */
module Feature {
  import opened Patterns
  import opened Resources
  import opened Scanners

  // ---------------------------------------------------------------------
  // What a pass selects, stated on sets of pattern sources
  // ---------------------------------------------------------------------

  /** The candidates that some pattern of the set `ps` matches as a whole. */
  function Chosen(eng: Engine, ps: set<string>, cands: set<string>): set<string>
  {
    set x | x in cands && exists p :: p in ps && eng.fullMatch(p, x)
  }

  /** The patterns of a pending set that are compiled: the empty source is dropped. */
  function Live(pending: set<string>): (r: set<string>)
    ensures r <= pending && "" !in r
    ensures forall p :: p in pending && p != "" ==> p in r
  {
    pending - {""}
  }

  /** Every pattern of `ps` compiles. */
  predicate AllCompile(eng: Engine, ps: set<string>)
  {
    forall p :: p in ps ==> eng.compiles(p)
  }

  /** The candidates of a set of classpath elements. */
  function ClasspathCandidates(es: set<Element>): set<string>
  {
    set e, x | e in es && x in Candidates(e) :: x
  }

  /**
   * The names a pass over `pending` registers when it completes: the module
   * candidates (only on runtimes with modules) and the classpath candidates
   * that some non-empty pending pattern matches.
   */
  function PassHits(eng: Engine, pending: set<string>, hasModules: bool, modules: seq<Module>, classpath: seq<Element>): set<string>
  {
    (if hasModules then Chosen(eng, Live(pending), ModuleCandidates(modules)) else {})
      + Chosen(eng, Live(pending), ClasspathCandidates(set e | e in classpath))
  }

  /** A pass over a non-empty `pending` completes exactly when nothing it touches fails. */
  predicate PassCompletes(eng: Engine, pending: set<string>, hasModules: bool, modules: seq<Module>, classpath: seq<Element>)
  {
    AllCompile(eng, Live(pending))
    && (hasModules ==> forall k :: 0 <= k < |modules| ==> modules[k].openable)
    && (Live(pending) != {} ==> forall e :: e in classpath ==> Readable(e))
  }

  lemma SelectedChosen(eng: Engine, pats: seq<string>, ps: set<string>, cands: set<string>)
    requires forall p :: p in pats <==> p in ps
    ensures Selected(eng, pats, cands) == Chosen(eng, ps, cands)
  {
  }

  /** Scanning with one more pattern adds exactly what that pattern selects. */
  lemma ChosenAddPattern(eng: Engine, ps: set<string>, p: string, cands: set<string>)
    ensures Chosen(eng, ps + {p}, cands) == Chosen(eng, ps, cands) + Chosen(eng, {p}, cands)
  {
  }

  /** Scanning one more element adds exactly what the pattern selects in it. */
  lemma ChosenAddElement(eng: Engine, ps: set<string>, done: set<Element>, e: Element)
    ensures Chosen(eng, ps, ClasspathCandidates(done + {e}))
         == Chosen(eng, ps, ClasspathCandidates(done)) + Chosen(eng, ps, Candidates(e))
  {
  }

  lemma ClasspathCandidatesMono(a: set<Element>, b: set<Element>)
    requires a <= b
    ensures ClasspathCandidates(a) <= ClasspathCandidates(b)
  {
  }

  lemma ChosenMono(eng: Engine, ps: set<string>, a: set<string>, b: set<string>)
    requires a <= b
    ensures Chosen(eng, ps, a) <= Chosen(eng, ps, b)
  {
  }

  lemma ElemsSplit(log: seq<string>, i: nat, j: nat)
    requires i <= j <= |log|
    ensures Elems(log[i..]) == Elems(log[i..j]) + Elems(log[j..])
  {
    assert log[i..] == log[i..j] + log[j..];
  }

  // ---------------------------------------------------------------------
  // Compiling the pending patterns
  // ---------------------------------------------------------------------

  /**
   * Compiles the pending patterns in the set's (unspecified) iteration
   * order, dropping the empty source. The first source that does not compile
   * aborts with a syntax failure naming it; otherwise the result holds
   * exactly the non-empty pending sources, each once.
   */
  method CompilePatterns(eng: Engine, pending: set<string>) returns (r: Result<seq<string>>)
    ensures r.Ok? <==> AllCompile(eng, Live(pending))
    ensures r.Ok? ==> forall p :: p in r.value <==> p in Live(pending)
    ensures r.Ok? ==> forall i, j :: 0 <= i < j < |r.value| ==> r.value[i] != r.value[j]
    ensures r.Err? ==> r.failure.PatternSyntax? && r.failure.pattern in Live(pending)
                       && !eng.compiles(r.failure.pattern)
  {
    var todo := pending;
    var compiled: seq<string> := [];
    while todo != {}
      invariant todo <= pending
      invariant forall p :: p in compiled <==> p in Live(pending - todo)
      invariant forall p :: p in compiled ==> eng.compiles(p)
      invariant forall i, j :: 0 <= i < j < |compiled| ==> compiled[i] != compiled[j]
      decreases todo
    {
      var s :| s in todo;
      todo := todo - {s};
      if s != "" {
        if !eng.compiles(s) {
          return Err(PatternSyntax(s));
        }
        assert s !in compiled;
        compiled := compiled + [s];
      }
    }
    return Ok(compiled);
  }

  // ---------------------------------------------------------------------
  // Scanning the boot modules with all patterns
  // ---------------------------------------------------------------------

  /**
   * The module step of a pass: scans the boot modules with the whole array
   * of compiled patterns. Fails exactly when some module cannot be opened;
   * the new registrations are module candidates some pattern matches (all
   * of them on success).
   */
  method ScanBootModules(eng: Engine, patterns: seq<string>, ghost live: set<string>, modules: seq<Module>, reg: Registry)
    returns (ok: bool)
    requires forall p :: p in patterns <==> p in live
    modifies reg
    ensures ok == forall k :: 0 <= k < |modules| ==> modules[k].openable
    ensures old(reg.log) <= reg.log
    ensures Elems(reg.log[|old(reg.log)|..]) <= Chosen(eng, live, ModuleCandidates(modules))
    ensures ok ==> Elems(reg.log[|old(reg.log)|..]) == Chosen(eng, live, ModuleCandidates(modules))
  {
    ghost var stop;
    ok, stop := FindResourcesInModules(eng, patterns, modules, reg);
    assert reg.log[|old(reg.log)|..] == ModulesSelected(eng, patterns, modules[..stop]);
    ModulesSelectedElems(eng, patterns, modules[..stop]);
    ModuleCandidatesPrefix(modules, stop);
    SelectedChosen(eng, patterns, live, ModuleCandidates(modules[..stop]));
    ChosenMono(eng, live, ModuleCandidates(modules[..stop]), ModuleCandidates(modules));
    if ok {
      assert modules[..stop] == modules;
    }
  }

  // ---------------------------------------------------------------------
  // Scanning the classpath with one pattern
  // ---------------------------------------------------------------------

  /**
   * Scans every element of the classpath, each once and in an unspecified
   * order, with the single pattern `pattern`. Fails exactly when some
   * element is not readable, with that element's failure; whatever was
   * registered is something the pattern selects.
   */
  method ScanClasspath(eng: Engine, pattern: string, classpath: seq<Element>, reg: Registry) returns (err: Option<Failure>)
    modifies reg
    ensures (err == None) <==> forall e :: e in classpath ==> Readable(e)
    ensures err.Some? ==> exists e :: e in classpath && !Readable(e) && FailsWith(e, err.value)
    ensures old(reg.log) <= reg.log
    ensures Elems(reg.log[|old(reg.log)|..]) <= Chosen(eng, {pattern}, ClasspathCandidates(set e | e in classpath))
    ensures err == None ==> Elems(reg.log[|old(reg.log)|..]) == Chosen(eng, {pattern}, ClasspathCandidates(set e | e in classpath))
  {
    ghost var start := |reg.log|;
    var todo := set e | e in classpath;
    ghost var all := todo;
    ghost var done: set<Element> := {};
    while todo != {}
      invariant todo + done == all && todo !! done
      invariant forall e :: e in done ==> Readable(e)
      invariant old(reg.log) <= reg.log && start == |old(reg.log)|
      invariant Elems(reg.log[start..]) == Chosen(eng, {pattern}, ClasspathCandidates(done))
      decreases todo
    {
      var element :| element in todo;
      ghost var before := |reg.log|;
      var failure := ScanElement(eng, [pattern], element, reg);
      SelectedChosen(eng, [pattern], {pattern}, Candidates(element));
      ElemsSplit(reg.log, start, before);
      ChosenAddElement(eng, {pattern}, done, element);
      if failure.Some? {
        ClasspathCandidatesMono(done + {element}, all);
        ChosenMono(eng, {pattern}, ClasspathCandidates(done + {element}), ClasspathCandidates(all));
        assert Elems(reg.log[before..]) <= Chosen(eng, {pattern}, Candidates(element));
        return failure;
      }
      todo := todo - {element};
      done := done + {element};
    }
    return None;
  }

  /**
   * Scans the whole classpath once for each compiled pattern in turn. Fails
   * at the first element that is not readable; a classpath scanned with at
   * least one pattern has every element readable. The new registrations are
   * the candidates some pattern selects (all of them on success).
   */
  method ScanClasspathPerPattern(eng: Engine, patterns: seq<string>, classpath: seq<Element>, reg: Registry)
    returns (err: Option<Failure>)
    modifies reg
    ensures (err == None) <==> (|patterns| > 0 ==> forall e :: e in classpath ==> Readable(e))
    ensures err.Some? ==> exists e :: e in classpath && !Readable(e) && FailsWith(e, err.value)
    ensures old(reg.log) <= reg.log
    ensures Elems(reg.log[|old(reg.log)|..]) <= Chosen(eng, (set p | p in patterns), ClasspathCandidates(set e | e in classpath))
    ensures err == None ==> Elems(reg.log[|old(reg.log)|..]) == Chosen(eng, (set p | p in patterns), ClasspathCandidates(set e | e in classpath))
  {
    ghost var start := |reg.log|;
    ghost var all := set e | e in classpath;
    ghost var live := set p | p in patterns;
    var k := 0;
    ghost var scanned: set<string> := {};
    while k < |patterns|
      invariant 0 <= k <= |patterns|
      invariant forall p :: p in scanned <==> p in patterns[..k]
      invariant k > 0 ==> forall e :: e in classpath ==> Readable(e)
      invariant start == |old(reg.log)| && old(reg.log) <= reg.log
      invariant Elems(reg.log[start..]) == Chosen(eng, scanned, ClasspathCandidates(all))
    {
      var pattern := patterns[k];
      ghost var before := |reg.log|;
      var failure := ScanClasspath(eng, pattern, classpath, reg);
      ElemsSplit(reg.log, start, before);
      ChosenAddPattern(eng, scanned, pattern, ClasspathCandidates(all));
      if failure.Some? {
        ClasspathPartial(eng, scanned, pattern, live, ClasspathCandidates(all));
        return failure;
      }
      assert patterns[..k + 1] == patterns[..k] + [pattern];
      scanned := scanned + {pattern};
      k := k + 1;
    }
    assert patterns[..k] == patterns;
    assert scanned == live;
    return None;
  }

  // ---------------------------------------------------------------------
  // The feature
  // ---------------------------------------------------------------------

  class ResourcesFeature {
    /** The regular-expression library. */
    const eng: Engine
    /** The values of the IncludeResources build option. */
    const includeResources: seq<string>

    /** Set once analysis is over; patterns can no longer be added. */
    var sealed: bool
    /** Patterns added since the last completed pass. */
    var pending: set<string>
    /** How many resource configuration files were loaded. */
    var loadedConfigurations: int

    constructor (eng: Engine, includeResources: seq<string>)
      ensures this.eng == eng && this.includeResources == includeResources
      ensures !sealed && pending == {} && loadedConfigurations == 0
    {
      this.eng := eng;
      this.includeResources := includeResources;
      sealed := false;
      pending := {};
      loadedConfigurations := 0;
    }

    /**
     * Adds an inclusion pattern. Before sealing it joins the pending set
     * (adding a pending pattern again changes nothing); after sealing the
     * call fails with a late-registration error naming the pattern.
     */
    method AddResources(pattern: string) returns (err: Option<Failure>)
      modifies this
      ensures sealed == old(sealed) && loadedConfigurations == old(loadedConfigurations)
      ensures old(sealed) ==> err == Some(LateRegistration(pattern)) && pending == old(pending)
      ensures !old(sealed) ==> err == None && pending == old(pending) + {pattern}
    {
      if sealed {
        return Some(LateRegistration(pattern));
      }
      pending := pending + {pattern};
      err := None;
    }

    /**
     * Records how many configuration files were loaded (their patterns
     * arrive through `AddResources`) and merges the IncludeResources option
     * values into the pending set.
     */
    method BeforeAnalysis(loaded: int)
      modifies this
      ensures sealed == old(sealed) && loadedConfigurations == loaded
      ensures pending == old(pending) + (set p | p in includeResources)
    {
      loadedConfigurations := loaded;
      pending := pending + (set p | p in includeResources);
    }

    /**
     * One analysis iteration. With nothing pending it does nothing. Otherwise
     * it asks for another iteration, compiles every pending pattern, scans
     * the boot modules with all of them at once (when the runtime has
     * modules), then the classpath once per pattern, and clears the pending
     * set. A failure stops the pass where it happens and keeps the pending
     * set; a syntax failure happens before anything is registered, an
     * internal error comes only from a module that does not open, and any
     * other failure names a classpath element that is not readable.
     */
    method DuringAnalysis(reg: Registry, hasModules: bool, modules: seq<Module>, classpath: seq<Element>)
      returns (iterate: bool, err: Option<Failure>)
      modifies this, reg
      ensures sealed == old(sealed) && loadedConfigurations == old(loadedConfigurations)
      ensures iterate <==> old(pending) != {}
      ensures old(pending) == {} ==> err == None && pending == {} && reg.log == old(reg.log)
      ensures (err == None) <==> (old(pending) == {} || PassCompletes(eng, old(pending), hasModules, modules, classpath))
      ensures err == None ==> pending == {}
      ensures err.Some? ==> pending == old(pending)
      ensures err.Some? && err.value.PatternSyntax? ==>
                reg.log == old(reg.log) && err.value.pattern in Live(old(pending)) && !eng.compiles(err.value.pattern)
      ensures err.Some? ==> (err.value.PatternSyntax? <==> !AllCompile(eng, Live(old(pending))))
      ensures err.Some? && err.value.ModuleUnreadable? ==>
                hasModules && exists k :: 0 <= k < |modules| && !modules[k].openable
      ensures err.Some? && !err.value.PatternSyntax? && !err.value.ModuleUnreadable? ==>
                (hasModules ==> forall k :: 0 <= k < |modules| ==> modules[k].openable)
                && exists e :: e in classpath && !Readable(e) && FailsWith(e, err.value)
      ensures old(reg.log) <= reg.log
      ensures err.Some? && err.value.ModuleUnreadable? ==>
                Elems(reg.log[|old(reg.log)|..]) <= Chosen(eng, Live(old(pending)), ModuleCandidates(modules))
      ensures Elems(reg.log[|old(reg.log)|..]) <= PassHits(eng, old(pending), hasModules, modules, classpath)
      ensures err == None ==> Elems(reg.log[|old(reg.log)|..]) == PassHits(eng, old(pending), hasModules, modules, classpath)
    {
      if pending == {} {
        return false, None;
      }
      iterate := true;
      ghost var live := Live(pending);
      ghost var start := |reg.log|;
      ghost var all := set e | e in classpath;
      var compiled := CompilePatterns(eng, pending);
      if compiled.Err? {
        return true, Some(compiled.failure);
      }
      var patterns := compiled.value;
      assert (set p | p in patterns) == live;
      assert |patterns| > 0 <==> live != {} by {
        if live != {} {
          var p :| p in live;
          assert p in patterns;
        }
        if |patterns| > 0 {
          assert patterns[0] in live;
        }
      }

      ghost var fromModules: set<string> := {};
      if hasModules {
        var ok := ScanBootModules(eng, patterns, live, modules, reg);
        if !ok {
          return true, Some(ModuleUnreadable);
        }
        fromModules := Chosen(eng, live, ModuleCandidates(modules));
      }
      assert Elems(reg.log[start..]) == fromModules;
      ghost var mid := |reg.log|;

      var failure := ScanClasspathPerPattern(eng, patterns, classpath, reg);
      ElemsSplit(reg.log, start, mid);
      if failure.Some? {
        return true, failure;
      }
      pending := {};
      err := None;
    }

    /** Seals the feature: from now on adding a pattern fails. */
    method AfterAnalysis()
      modifies this
      ensures sealed
      ensures pending == old(pending) && loadedConfigurations == old(loadedConfigurations)
    {
      sealed := true;
    }

    /**
     * Whether the step before compilation throws the fallback request: only
     * when the fallback feature is present and has a resource fallback
     * request, no IncludeResources value was given, and no configuration file
     * was loaded.
     */
    function BeforeCompilation(fallbackPresent: bool, resourceFallbackSet: bool): (throwsFallback: bool)
      reads this
      ensures throwsFallback ==> fallbackPresent && resourceFallbackSet
      ensures throwsFallback ==> includeResources == [] && loadedConfigurations == 0
      ensures fallbackPresent && resourceFallbackSet && includeResources == [] && loadedConfigurations == 0 ==> throwsFallback
    {
      if !fallbackPresent then false
      else resourceFallbackSet && |includeResources| == 0 && loadedConfigurations == 0
    }
  }

  /**
   * A pending set holding only the empty source compiles nothing and
   * selects nothing; the pass still opens every module, so it completes
   * exactly when the modules can be opened.
   */
  lemma OnlyEmptyPattern(eng: Engine, hasModules: bool, modules: seq<Module>, classpath: seq<Element>)
    ensures PassHits(eng, {""}, hasModules, modules, classpath) == {}
    ensures PassCompletes(eng, {""}, hasModules, modules, classpath)
            <==> (hasModules ==> forall k :: 0 <= k < |modules| ==> modules[k].openable)
  {
    assert Live({""}) == {};
  }

  lemma ClasspathPartial(eng: Engine, scanned: set<string>, p: string, live: set<string>, cands: set<string>)
    requires scanned <= live && p in live
    ensures Chosen(eng, scanned, cands) + Chosen(eng, {p}, cands) <= Chosen(eng, live, cands)
  {
  }
}
