/**
 * The callback-invocation job (Sidekiq::Batch::Callback::Worker#perform): it filters the
 * event kind, parses the handler descriptor "Class#method", defaults the method to
 * "on_<event>", resolves the class and calls the method only when the handler has it.
 *
 * Ruby's reflection is replaced by a registry from class names to the methods their
 * instances respond to; the call itself is recorded as an Invocation value.
 */
module CallbackWorker {
  import opened Wrappers
  import opened RubySplit

  /** The options hash passed through to the handler untouched. */
  type Opts = map<string, string>

  /** Class name -> names of the methods an instance of that class responds to. */
  type Registry = map<string, set<string>>

  /** The read-only batch status handed to the handler (Sidekiq::Batch::Status.new(bid)). */
  datatype Status = Status(bid: Bid)

  /** The class part (nil when the descriptor yields none) and the method to call. */
  datatype Handler = Handler(name: Option<string>, meth: string)

  /** A call handler.meth(status, opts) on a new instance of the class. */
  datatype Invocation = Invocation(handler: string, meth: string, status: Status, opts: Opts)

  /** What one perform does. */
  datatype Outcome =
    | Ignored                                  // event is neither success nor complete
    | NoClass                                  // the descriptor yields no class: nothing is resolved
    | Unresolved(name: string)                 // Object.const_get raises NameError
    | Skipped(handler: string, meth: string) // the instance does not respond to the method
    | Invoked(call: Invocation)

  /** The event kinds this worker acts on. */
  predicate Handled(event: string) {
    event == "success" || event == "complete"
  }

  function DefaultMethod(event: string): string {
    "on_" + event
  }

  /**
   * The class and method named by a descriptor: a descriptor holding "#" is split on it and
   * its first two parts taken; a method that comes out nil becomes "on_<event>".
   */
  function ParseDescriptor(clazz: Option<string>, event: string): (h: Handler)
    ensures clazz.None? ==> h == Handler(None, DefaultMethod(event))
    ensures clazz.Some? && '#' !in clazz.value ==> h == Handler(clazz, DefaultMethod(event))
    ensures h.name.Some? ==> '#' !in h.name.value
  {
    if clazz.Some? && '#' in clazz.value then
      var parts := Split(clazz.value, '#');
      var name := if |parts| >= 1 then Some(parts[0]) else None;
      var meth := if |parts| >= 2 then Some(parts[1]) else None;
      assert forall k | 0 <= k < |parts| :: '#' !in parts[k] by {
        FieldsHaveNoSeparator(clazz.value, '#');
        forall k | 0 <= k < |parts| ensures '#' !in parts[k] {
          assert parts[k] == Fields(clazz.value, '#')[k];
        }
      }
      Handler(name, if meth.None? then DefaultMethod(event) else meth.value)
    else
      Handler(clazz, DefaultMethod(event))
  }

  /**
   * A descriptor holding "#": the class is the text before the first "#" (none when the
   * descriptor is all "#"), the method the text between the first and the second "#" (or the
   * end), defaulted to "on_<event>" when only "#" characters follow the first one.
   */
  lemma DescriptorWithHash(s: string, event: string)
    requires '#' in s
    ensures var i := IndexOf(s, '#');
            var rest := s[i + 1..];
            ParseDescriptor(Some(s), event) ==
              Handler(if OnlyChar(s, '#') then None else Some(s[..i]),
                      if OnlyChar(rest, '#') then DefaultMethod(event) else rest[..IndexOf(rest, '#')])
  {
    SplitHasFirst(s, '#');
    SplitHasSecond(s, '#');
  }

  /** "Name#method" names the class Name and the method, "Name#" the class Name and the default method. */
  lemma DescriptorClassMethod(name: string, meth: string, event: string)
    requires name != "" && '#' !in name && '#' !in meth
    ensures ParseDescriptor(Some(name + "#" + meth), event) ==
            Handler(Some(name), if meth == "" then DefaultMethod(event) else meth)
  {
    var s := name + "#" + meth;
    IndexOfAfterPrefix(name, meth, '#');
    assert s[..|name|] == name;
    assert s[|name| + 1..] == meth;
    assert s[0] == name[0] != '#';
    DescriptorWithHash(s, event);
    if meth != "" {
      assert meth[0] != '#';
    }
  }

  /**
   * perform(clazz, event, opts, bid, parent_bid). The status handed to the handler is built
   * from bid; parent_bid is accepted and never read.
   */
  function Perform(registry: Registry, clazz: Option<string>, event: string, opts: Opts,
                   bid: Bid, parentBid: Option<Bid>): (r: Outcome)
    ensures r.Ignored? <==> !Handled(event)
    ensures r.Unresolved? ==> r.name !in registry
    ensures r.Skipped? ==> r.handler in registry && r.meth !in registry[r.handler]
    ensures r.Invoked? ==> && r.call.handler in registry
                           && r.call.meth in registry[r.call.handler]
                           && r.call.status == Status(bid)
                           && r.call.opts == opts
  {
    if !Handled(event) then Ignored
    else
      var h := ParseDescriptor(clazz, event);
      if h.name.None? then NoClass
      else if h.name.value !in registry then Unresolved(h.name.value)
      else if h.meth in registry[h.name.value] then
        Invoked(Invocation(h.name.value, h.meth, Status(bid), opts))
      else Skipped(h.name.value, h.meth)
  }

  /**
   * Each outcome of perform against the parsed descriptor, in both directions: the handler is
   * invoked exactly when the event is handled, the descriptor yields a class the registry resolves
   * and its instances respond to the parsed method, and that is the call made; the class is
   * unresolved, absent, or instantiated but lacking the method exactly in the remaining cases.
   */
  lemma PerformInvokesIff(registry: Registry, clazz: Option<string>, event: string, opts: Opts,
                          bid: Bid, parentBid: Option<Bid>)
    ensures var h := ParseDescriptor(clazz, event);
            var r := Perform(registry, clazz, event, opts, bid, parentBid);
            && (r.Invoked? <==> Handled(event) && h.name.Some? && h.name.value in registry
                                && h.meth in registry[h.name.value])
            && (r.Invoked? ==> r.call == Invocation(h.name.value, h.meth, Status(bid), opts))
            && (r.Unresolved? <==> Handled(event) && h.name.Some? && h.name.value !in registry)
            && (r.Unresolved? ==> r == Unresolved(h.name.value))
            && (r.NoClass? <==> Handled(event) && h.name.None?)
            && (r.Skipped? <==> Handled(event) && h.name.Some? && h.name.value in registry
                                && h.meth !in registry[h.name.value])
            && (r.Skipped? ==> r == Skipped(h.name.value, h.meth))
  {
  }

  /** Ignored events never consult the registry, and parent_bid never changes what perform does. */
  lemma PerformIndependence(reg1: Registry, reg2: Registry, clazz: Option<string>, event: string,
                            opts: Opts, bid: Bid, pb1: Option<Bid>, pb2: Option<Bid>)
    ensures !Handled(event) ==> Perform(reg1, clazz, event, opts, bid, pb1) == Perform(reg2, clazz, event, opts, bid, pb2)
    ensures Perform(reg1, clazz, event, opts, bid, pb1) == Perform(reg1, clazz, event, opts, bid, pb2)
  {
  }

  /** "Reporter#on_done" on success calls on_done on a new Reporter with the batch's status. */
  lemma ScenarioExplicitMethod(opts: Opts, bid: Bid)
    ensures var reg := map["Reporter" := {"on_done", "on_complete"}];
            Perform(reg, Some("Reporter#on_done"), "success", opts, bid, None)
              == Invoked(Invocation("Reporter", "on_done", Status(bid), opts))
  {
    assert "Reporter#on_done" == "Reporter" + "#" + "on_done";
    DescriptorClassMethod("Reporter", "on_done", "success");
  }

  /** "Reporter" on complete calls the defaulted on_complete, and is a no-op when Reporter lacks it. */
  lemma ScenarioDefaultMethod(opts: Opts, bid: Bid)
    ensures var reg := map["Reporter" := {"on_done", "on_complete"}];
            Perform(reg, Some("Reporter"), "complete", opts, bid, None)
              == Invoked(Invocation("Reporter", "on_complete", Status(bid), opts))
    ensures var reg := map["Reporter" := {"on_done"}];
            Perform(reg, Some("Reporter"), "complete", opts, bid, None) == Skipped("Reporter", "on_complete")
  {
    assert '#' !in "Reporter" by {
      forall k | 0 <= k < |"Reporter"| ensures "Reporter"[k] != '#' {
      }
    }
    assert DefaultMethod("complete") == "on_complete";
  }
}
