/**
 * The storage daemon's start-up options and its listener loop bookkeeping
 * (src/adiskd/adiskd.c): the getopt flags, and how reaped children and
 * the background task are tracked.  getopt, waitpid and fork are inputs:
 * the option characters getopt returns, the pid waitpid reports, and the
 * pid fork returns to the parent.
 */
module StorageDaemon {
  import opened Wrappers

  /** The option flags main's getopt loop sets. */
  datatype Flags = Flags(
    doDaemon: bool,
    doFork: bool,
    notSilent: bool,
    bindLocally: bool,
    doBackground: bool,
    idleBackground: bool)

  /** The flags before any option: daemon, fork and background on, quiet, all interfaces. */
  const DefaultFlags := Flags(true, true, false, false, true, true)

  /** Where option parsing leaves the daemon: carry on with these flags, or exit. */
  datatype Parsed = Continue(flags: Flags) | Exit(status: int)

  /** The option characters that set a flag; any other character ends the program. */
  predicate SetsFlag(c: char)
  {
    c == 'b' || c == 'd' || c == 'i' || c == 'l' || c == 'n' || c == 's'
  }

  /** One case of the switch in main's getopt loop. */
  function ApplyOption(f: Flags, c: char): (r: Parsed)
    ensures r.Exit? <==> !SetsFlag(c)
    ensures r.Exit? ==> r.status == (if c == 'h' then 0 else 1)
  {
    match c
    case 'b' => Continue(f.(doBackground := false))
    case 'd' => Continue(f.(doDaemon := false))
    case 'h' => Exit(0)
    case 'i' => Continue(f.(idleBackground := false))
    case 'l' => Continue(f.(bindLocally := true))
    case 'n' => Continue(f.(doFork := false, doDaemon := false))
    case 's' => Continue(f.(notSilent := true))
    case _ => Exit(1)
  }

  /**
   * The getopt loop over the option characters, stopping at the first that
   * exits; the only exit statuses are 0 (-h) and 1.
   */
  function ParseFlags(f: Flags, opts: seq<char>): (r: Parsed)
    ensures r.Exit? ==> r.status == 0 || r.status == 1
    ensures r.Exit? ==> exists i :: 0 <= i < |opts| && !SetsFlag(opts[i])
    decreases |opts|
  {
    if opts == [] then Continue(f)
    else match ApplyOption(f, opts[0])
      case Exit(status) => Exit(status)
      case Continue(g) => ParseFlags(g, opts[1..])
  }

  /** `i` is the first option that does not set a flag. */
  predicate FirstStop(opts: seq<char>, i: int)
  {
    0 <= i < |opts| && !SetsFlag(opts[i]) && forall j :: 0 <= j < i ==> SetsFlag(opts[j])
  }

  /** Parsing carries on exactly when every option sets a flag. */
  lemma {:induction false} ParseContinues(f: Flags, opts: seq<char>)
    ensures ParseFlags(f, opts).Continue? <==> forall i :: 0 <= i < |opts| ==> SetsFlag(opts[i])
    decreases |opts|
  {
    if opts != [] {
      var rest := opts[1..];
      match ApplyOption(f, opts[0])
      case Exit(_) =>
      case Continue(g) =>
        ParseContinues(g, rest);
        assert forall i :: 0 < i < |opts| ==> opts[i] == rest[i - 1];
    }
  }

  /** Each flag option sets exactly its own flags. */
  lemma OptionEffect(f: Flags, c: char)
    requires SetsFlag(c)
    ensures var g := ApplyOption(f, c).flags;
            g.doBackground == (f.doBackground && c != 'b') &&
            g.doDaemon == (f.doDaemon && c != 'd' && c != 'n') &&
            g.doFork == (f.doFork && c != 'n') &&
            g.idleBackground == (f.idleBackground && c != 'i') &&
            g.bindLocally == (f.bindLocally || c == 'l') &&
            g.notSilent == (f.notSilent || c == 's')
  {
    match c
    case 'b' =>
    case 'd' =>
    case 'i' =>
    case 'l' =>
    case 'n' =>
    case 's' =>
  }

  /**
   * What the options mean, whatever their order or repetition: each flag
   * ends up off (or on) exactly when one of its options was given, and -n
   * clears both fork and daemon.
   */
  lemma {:induction false} ParseFlagsResult(f: Flags, opts: seq<char>)
    requires ParseFlags(f, opts).Continue?
    ensures var g := ParseFlags(f, opts).flags;
            g.doBackground == (f.doBackground && 'b' !in opts) &&
            g.doDaemon == (f.doDaemon && 'd' !in opts && 'n' !in opts) &&
            g.doFork == (f.doFork && 'n' !in opts) &&
            g.idleBackground == (f.idleBackground && 'i' !in opts) &&
            g.bindLocally == (f.bindLocally || 'l' in opts) &&
            g.notSilent == (f.notSilent || 's' in opts)
    decreases |opts|
  {
    if opts != [] {
      var c, rest := opts[0], opts[1..];
      assert forall x :: x in opts <==> x == c || x in rest by {
        assert opts == [c] + rest;
      }
      OptionEffect(f, c);
      ParseFlagsResult(ApplyOption(f, c).flags, rest);
    }
  }

  /**
   * Parsing stops at the first option that sets no flag: with status 0 if
   * it is -h, 1 otherwise.
   */
  lemma {:induction false} ParseExitStatus(f: Flags, opts: seq<char>)
    requires ParseFlags(f, opts).Exit?
    ensures exists i :: FirstStop(opts, i) && ParseFlags(f, opts).status == (if opts[i] == 'h' then 0 else 1)
    decreases |opts|
  {
    var c := opts[0];
    var rest := opts[1..];
    if SetsFlag(c) {
      var g := ApplyOption(f, c).flags;
      ParseExitStatus(g, rest);
      var i :| FirstStop(rest, i) && ParseFlags(g, rest).status == (if rest[i] == 'h' then 0 else 1);
      assert FirstStop(opts, i + 1);
    } else {
      assert FirstStop(opts, 0);
    }
  }

  /** Giving the same options again changes nothing. */
  lemma OptionsIdempotent(f: Flags, opts: seq<char>)
    requires ParseFlags(f, opts).Continue?
    ensures ParseFlags(ParseFlags(f, opts).flags, opts) == ParseFlags(f, opts)
  {
    var g := ParseFlags(f, opts).flags;
    ParseContinues(f, opts);
    ParseContinues(g, opts);
    ParseFlagsResult(f, opts);
    ParseFlagsResult(g, opts);
  }

  /** What the listener loop does about background work on one pass. */
  datatype Launch = NotStarted | Forked(pid: int) | RanInline

  /** The daemon's globals. */
  class Daemon {
    var doDaemon: bool
    var doFork: bool
    var notSilent: bool
    var bindLocally: bool
    var activeSearches: int
    var doBackground: bool
    var idleBackground: bool
    var backgroundPid: int

    /** The option flags as a value. */
    function OptionFlags(): Flags
      reads this
    {
      Flags(doDaemon, doFork, notSilent, bindLocally, doBackground, idleBackground)
    }

    /** The initial values of the globals. */
    constructor()
      ensures OptionFlags() == DefaultFlags
      ensures activeSearches == 0 && backgroundPid == -1
    {
      doDaemon := true;
      doFork := true;
      notSilent := false;
      bindLocally := false;
      activeSearches := 0;
      doBackground := true;
      idleBackground := true;
      backgroundPid := -1;
    }

    /**
     * The getopt loop: applies each option character in turn; returns the
     * exit status of -h or of an unknown option, None when all were flags.
     */
    method ParseOptions(opts: seq<char>) returns (exit: Option<int>)
      modifies this
      ensures ParseFlags(old(OptionFlags()), opts).Continue? ==>
                exit == None && OptionFlags() == ParseFlags(old(OptionFlags()), opts).flags
      ensures ParseFlags(old(OptionFlags()), opts).Exit? ==>
                exit == Some(ParseFlags(old(OptionFlags()), opts).status)
      ensures activeSearches == old(activeSearches) && backgroundPid == old(backgroundPid)
    {
      for i := 0 to |opts|
        invariant ParseFlags(OptionFlags(), opts[i..]) == ParseFlags(old(OptionFlags()), opts)
        invariant activeSearches == old(activeSearches) && backgroundPid == old(backgroundPid)
      {
        assert opts[i..][1..] == opts[i + 1..];
        match opts[i]
        case 'b' => doBackground := false;
        case 'd' => doDaemon := false;
        case 'h' => return Some(0);
        case 'i' => idleBackground := false;
        case 'l' => bindLocally := true;
        case 'n' => doFork := false; doDaemon := false;
        case 's' => notSilent := true;
        case _ => return Some(1);
      }
      assert opts[|opts|..] == [];
      exit := None;
    }

    /**
     * The non-blocking waitpid after each listen: the background child's
     * exit frees the background slot; any other child was a search.
     */
    method Reap(waitPid: int)
      modifies this
      ensures OptionFlags() == old(OptionFlags())
      ensures waitPid <= 0 ==> activeSearches == old(activeSearches) && backgroundPid == old(backgroundPid)
      ensures waitPid > 0 && waitPid == old(backgroundPid) ==>
                backgroundPid == -1 && activeSearches == old(activeSearches)
      ensures waitPid > 0 && waitPid != old(backgroundPid) ==>
                activeSearches == old(activeSearches) - 1 && backgroundPid == old(backgroundPid)
    {
      if waitPid > 0 {
        if waitPid == backgroundPid {
          backgroundPid := -1;
        } else {
          activeSearches := activeSearches - 1;
        }
      }
    }

    /**
     * Starting background work: only with no background child, no active
     * search and background work enabled; in a child process when forking
     * (the parent records the pid fork returns), else in the daemon itself.
     */
    method StartBackground(forkPid: int) returns (launch: Launch)
      modifies this
      ensures OptionFlags() == old(OptionFlags()) && activeSearches == old(activeSearches)
      ensures launch != NotStarted <==> old(backgroundPid) == -1 && activeSearches == 0 && doBackground
      ensures launch.Forked? <==> launch != NotStarted && doFork
      ensures launch.Forked? ==> launch.pid == forkPid && backgroundPid == forkPid
      ensures !launch.Forked? ==> backgroundPid == old(backgroundPid)
    {
      launch := NotStarted;
      if backgroundPid == -1 && activeSearches == 0 && doBackground {
        if doFork {
          backgroundPid := forkPid;
          launch := Forked(forkPid);
        } else {
          launch := RanInline;
        }
      }
    }
  }
}
