/** From the provider list in the environment to the dispatcher's routes
    (internal/config/config.go, internal/webhook/registry.go, internal/webhook/dispatcher.go). */
module Routing {
  import opened Basics

  // ---- Comma-separated lists ---------------------------------------------------

  /** `strings.SplitSeq(v, ",")`. */
  function Split(v: string): (r: seq<string>)
    ensures r != []
    ensures forall piece <- r :: ',' !in piece
  {
    if v == "" then [""]
    else
      var rest := Split(v[1..]);
      if v[0] == ',' then [""] + rest else [[v[0]] + rest[0]] + rest[1..]
  }

  function Join(items: seq<string>): string {
    if items == [] then "" else if |items| == 1 then items[0] else items[0] + "," + Join(items[1..])
  }

  lemma {:induction false} SplitAt(piece: string, rest: string)
    requires ',' !in piece
    ensures Split(piece + "," + rest) == [piece] + Split(rest)
    ensures Split(piece) == [piece]
  {
    if piece == "" {
      assert ("" + "," + rest)[1..] == rest;
    } else {
      var tail := piece[1..];
      SplitAt(tail, rest);
      assert (piece + "," + rest)[1..] == tail + "," + rest;
      assert [piece[0]] + tail == piece;
    }
  }

  lemma {:induction false} SplitInvertsJoin(items: seq<string>)
    requires items != [] && forall x <- items :: ',' !in x
    ensures Split(Join(items)) == items
  {
    if |items| == 1 {
      SplitAt(items[0], "");
    } else {
      SplitInvertsJoin(items[1..]);
      SplitAt(items[0], Join(items[1..]));
    }
  }

  lemma {:induction false} JoinInvertsSplit(v: string)
    ensures Join(Split(v)) == v
  {
    if v != "" {
      JoinInvertsSplit(v[1..]);
      var rest := Split(v[1..]);
      assert v == [v[0]] + v[1..];
      if v[0] == ',' {
        assert ([""] + rest)[1..] == rest;
      } else {
        assert ([[v[0]] + rest[0]] + rest[1..])[1..] == rest[1..];
      }
    }
  }

  function Normalize(raw: string): string {
    ToLower(Trim(raw))
  }

  lemma NormalizeIsIdempotent(raw: string)
    ensures Normalize(Normalize(raw)) == Normalize(raw)
    ensures ',' !in raw ==> ',' !in Normalize(raw)
  {
    var t := Trim(raw);
    LoweringKeeps(t);
    assert Trim(ToLower(t)) == ToLower(t);
  }

  /** Lowering twice is lowering once, and it touches neither blanks nor commas. */
  lemma LoweringKeeps(t: string)
    ensures ToLower(ToLower(t)) == ToLower(t)
    ensures forall i | 0 <= i < |t| :: IsSpace(ToLower(t)[i]) == IsSpace(t[i])
    ensures ',' !in t ==> ',' !in ToLower(t)
  {
    forall i | 0 <= i < |t|
      ensures LowerChar(ToLower(t)[i]) == ToLower(t)[i] && IsSpace(ToLower(t)[i]) == IsSpace(t[i])
      ensures ToLower(t)[i] == ',' ==> t[i] == ','
    {
      LowerCharKeeps(t[i]);
    }
  }

  lemma LowerCharKeeps(c: char)
    ensures LowerChar(LowerChar(c)) == LowerChar(c) && IsSpace(LowerChar(c)) == IsSpace(c)
    ensures LowerChar(c) == ',' ==> c == ','
  {
  }

  /** What `f` makes of each piece, kept when not empty. */
  function Kept(f: string -> string, raws: seq<string>): seq<string> {
    if raws == [] then []
    else
      var front, e := Kept(f, raws[..|raws| - 1]), f(raws[|raws| - 1]);
      if e == "" then front else front + [e]
  }

  function Entries(raws: seq<string>): seq<string> {
    Kept(Normalize, raws)
  }

  lemma KeptSnoc(f: string -> string, raws: seq<string>, n: nat)
    requires n < |raws|
    ensures Kept(f, raws[..n + 1]) == Kept(f, raws[..n]) + (if f(raws[n]) == "" then [] else [f(raws[n])])
  {
    assert raws[..n + 1][..n] == raws[..n];
  }

  lemma {:induction false} KeptFrom(f: string -> string, raws: seq<string>, e: string) returns (i: nat)
    requires e in Kept(f, raws)
    ensures i < |raws| && e != "" && e == f(raws[i])
  {
    var front := raws[..|raws| - 1];
    if e in Kept(f, front) {
      i := KeptFrom(f, front, e);
    } else {
      i := |raws| - 1;
    }
  }

  lemma {:induction false} KeptHas(f: string -> string, raws: seq<string>, i: nat)
    requires i < |raws| && f(raws[i]) != ""
    ensures f(raws[i]) in Kept(f, raws)
  {
    if i < |raws| - 1 {
      KeptHas(f, raws[..|raws| - 1], i);
    }
  }

  lemma {:induction false} KeptStays(f: string -> string, items: seq<string>)
    requires forall i | 0 <= i < |items| :: items[i] != "" && f(items[i]) == items[i]
    ensures Kept(f, items) == items
  {
    if items != [] {
      KeptStays(f, items[..|items| - 1]);
      assert items == items[..|items| - 1] + [items[|items| - 1]];
    }
  }

  /** First occurrences, in order. */
  function Firsts(items: seq<string>): (r: seq<string>)
    ensures forall x :: x in r <==> x in items
    ensures forall i, j | 0 <= i < j < |r| :: r[i] != r[j]
  {
    if items == [] then []
    else
      assert items == items[..|items| - 1] + [items[|items| - 1]];
      var front, x := Firsts(items[..|items| - 1]), items[|items| - 1];
      if x in front then front else front + [x]
  }

  /** The position of the first occurrence. */
  function FirstAt(items: seq<string>, x: string): (n: nat)
    requires x in items
    ensures n < |items| && items[n] == x && x !in items[..n]
  {
    if items[0] == x then 0
    else
      assert items == [items[0]] + items[1..];
      var n := FirstAt(items[1..], x) + 1;
      assert items[..n] == [items[0]] + items[1..][..n - 1];
      n
  }

  lemma FirstAtStays(items: seq<string>, y: string, x: string)
    requires x in items
    ensures FirstAt(items + [y], x) == FirstAt(items, x)
  {
    var n, m := FirstAt(items, x), FirstAt(items + [y], x);
    assert (items + [y])[n] == x && n < |items|;
  }

  /** Entries keep the order of their first occurrences. */
  lemma {:induction false} FirstsKeepOrder(items: seq<string>, i: nat, j: nat)
    requires i < j < |Firsts(items)|
    ensures Firsts(items)[i] in items && Firsts(items)[j] in items
    ensures FirstAt(items, Firsts(items)[i]) < FirstAt(items, Firsts(items)[j])
  {
    var front, x := items[..|items| - 1], items[|items| - 1];
    var r := Firsts(front);
    assert items == front + [x];
    FirstAtStays(front, x, r[i]);
    if j < |r| {
      FirstsKeepOrder(front, i, j);
      FirstAtStays(front, x, r[j]);
    } else {
      assert Firsts(items)[j] == x && x !in front;
    }
  }

  predicate NoCapitals(s: string) { forall c <- s :: !('A' <= c <= 'Z') }

  /** The entry of a piece: its text between outer blanks with capital letters lowered. */
  ghost predicate EntryOf(piece: string, e: string) {
    exists t: string :: BetweenBlanks(piece, t) && NoBlankEnds(t) && e == ToLower(t)
  }

  lemma NormalizeReads(raw: string)
    ensures EntryOf(raw, Normalize(raw)) && NoCapitals(Normalize(raw))
    ensures Normalize(raw) == "" <==> Blank(raw)
  {
    var t := Trim(raw);
    assert BetweenBlanks(raw, t) && NoBlankEnds(t);
    LoweredHasNoCapitals(t);
  }

  lemma LoweredHasNoCapitals(t: string)
    ensures NoCapitals(ToLower(t))
  {
    assert forall c: char :: !IsUpper(LowerChar(c));
  }

  ghost predicate Gives(piece: string, e: string) {
    !Blank(piece) && EntryOf(piece, e)
  }

  lemma EntryIsNormalized(raw: string, e: string)
    ensures EntryOf(raw, e) <==> e == Normalize(raw)
  {
    NormalizeReads(raw);
    if t :| BetweenBlanks(raw, t) && NoBlankEnds(t) && e == ToLower(t) {
      TrimIsDetermined(raw, t);
    }
  }

  predicate Yields(piece: string, e: string) {
    e != "" && e == Normalize(piece)
  }

  lemma GivesIsYields(piece: string, e: string)
    ensures Gives(piece, e) <==> Yields(piece, e)
    ensures Gives(piece, e) ==> NoCapitals(e)
  {
    NormalizeReads(piece);
    EntryIsNormalized(piece, e);
  }

  /** An entry is in the list exactly when some piece that is not blank gives it; no entry holds a capital letter. */
  lemma ListReads(pieces: seq<string>, e: string)
    ensures e in Entries(pieces) <==> exists i :: 0 <= i < |pieces| && Gives(pieces[i], e)
    ensures e in Entries(pieces) ==> NoCapitals(e)
  {
    if e in Entries(pieces) {
      var i := KeptFrom(Normalize, pieces, e);
      GivesIsYields(pieces[i], e);
    }
    if i :| 0 <= i < |pieces| && Gives(pieces[i], e) {
      GivesIsYields(pieces[i], e);
      KeptHas(Normalize, pieces, i);
    }
  }

  /** One more piece. */
  lemma ListSnoc(f: string -> string, pieces: seq<string>, i: nat)
    requires i < |pieces|
    ensures var out, e := Firsts(Kept(f, pieces[..i])), f(pieces[i]);
            Firsts(Kept(f, pieces[..i + 1])) == if e == "" || e in out then out else out + [e]
  {
    KeptSnoc(f, pieces, i);
    var front, e := Kept(f, pieces[..i]), f(pieces[i]);
    assert (front + [e])[..|front|] == front;
    assert front + [] == front;
  }

  /** `csv`: `env` is the variable, None when unset. */
  method Csv(env: Option<string>, fallback: seq<string>) returns (out: seq<string>)
    ensures env.None? ==> out == fallback
    ensures env.Some? ==> out == Firsts(Entries(Split(env.value)))
  {
    if env.None? {
      return fallback;
    }
    var pieces := Split(env.value);
    var seen: set<string> := {};
    out := [];
    for i := 0 to |pieces|
      invariant out == Firsts(Kept(Normalize, pieces[..i]))
      invariant forall x :: x in seen <==> x in out
    {
      ListSnoc(Normalize, pieces, i);
      var entry := Normalize(pieces[i]);
      if entry != "" {
        if entry !in seen {
          seen := seen + {entry};
          out := out + [entry];
        }
      }
    }
    assert pieces[..|pieces|] == pieces;
  }

  lemma {:induction false} DistinctStay(items: seq<string>)
    requires forall i, j | 0 <= i < j < |items| :: items[i] != items[j]
    ensures Firsts(items) == items
  {
    if items != [] {
      DistinctStay(items[..|items| - 1]);
      assert items == items[..|items| - 1] + [items[|items| - 1]];
    }
  }

  /** Doing it twice to one piece is doing it once, and makes no comma. */
  ghost predicate Settles(f: string -> string) {
    f("") == "" && forall raw :: f(f(raw)) == f(raw) && (',' !in raw ==> ',' !in f(raw))
  }

  lemma ReparseWith(f: string -> string, v: string)
    requires Settles(f)
    ensures var out := Firsts(Kept(f, Split(v)));
            Firsts(Kept(f, Split(Join(out)))) == out
  {
    var out := Firsts(Kept(f, Split(v)));
    forall e | e in out ensures e != "" && f(e) == e && ',' !in e {
      var i := KeptFrom(f, Split(v), e);
      assert Split(v)[i] in Split(v);
    }
    if out == [] {
      KeptSnoc(f, [""], 0);
      assert [""][..0] == [] && [""][..1] == [""];
    } else {
      SplitInvertsJoin(out);
      KeptStays(f, out);
      DistinctStay(out);
    }
  }

  lemma NormalizeSettles()
    ensures Settles(Normalize)
  {
    forall raw ensures Normalize(Normalize(raw)) == Normalize(raw) && (',' !in raw ==> ',' !in Normalize(raw)) {
      NormalizeIsIdempotent(raw);
    }
  }

  /** A parsed list written back with commas parses to itself. */
  lemma ReparseIsIdentity(v: string)
    ensures var out := Firsts(Entries(Split(v)));
            Firsts(Entries(Split(Join(out)))) == out
  {
    NormalizeSettles();
    ReparseWith(Normalize, v);
  }

  // ---- The registry ---------------------------------------------------------------

  datatype Provider = Provider(name: string)

  /** A factory with its dependencies applied: it builds a provider or fails. */
  datatype Factory = Builds(provider: Provider) | Fails

  class Registry {
    var providers: map<string, Factory>

    constructor ()
      ensures providers == map[]
    {
      providers := map[];
    }

    /** `Register`; false stands for the panic on a second registration. */
    method Register(name: string, factory: Factory) returns (ok: bool)
      modifies this
      ensures ok == (name !in old(providers))
      ensures providers == if ok then old(providers)[name := factory] else old(providers)
    {
      if name in providers {
        return false;
      }
      providers := providers[name := factory];
      ok := true;
    }

    /** `Build`: None when a provider is not registered or its factory fails. */
    method Build(enabled: seq<string>) returns (out: Option<seq<Provider>>)
      ensures out.Some? <==> forall name <- enabled :: name in providers && providers[name].Builds?
      ensures out.Some? ==> |out.value| == |enabled|
                            && forall i | 0 <= i < |enabled| :: providers[enabled[i]] == Builds(out.value[i])
    {
      var built := [];
      for i := 0 to |enabled|
        invariant forall j | 0 <= j < i :: enabled[j] in providers && providers[enabled[j]].Builds?
        invariant |built| == i && forall j | 0 <= j < i :: providers[enabled[j]] == Builds(built[j])
      {
        if enabled[i] !in providers || providers[enabled[i]].Fails? {
          return None;
        }
        built := built + [providers[enabled[i]].provider];
      }
      out := Some(built);
    }
  }

  ghost predicate DistinctNames(ps: seq<Provider>) {
    forall i, j | 0 <= i < j < |ps| :: ps[i].name != ps[j].name
  }

  /** `NewDispatcher`'s route table; None stands for the panic on a duplicate name. */
  method NewDispatcher(ps: seq<Provider>) returns (routes: Option<map<string, Provider>>)
    ensures routes.Some? <==> DistinctNames(ps)
    ensures routes.Some? ==> forall name :: name in routes.value <==> exists p <- ps :: p.name == name
    ensures routes.Some? ==> forall p <- ps :: p.name in routes.value && routes.value[p.name] == p
  {
    var table: map<string, Provider> := map[];
    for i := 0 to |ps|
      invariant forall a, b | 0 <= a < b < i :: ps[a].name != ps[b].name
      invariant forall name :: name in table <==> exists a :: 0 <= a < i && ps[a].name == name
      invariant forall a | 0 <= a < i :: ps[a].name in table && table[ps[a].name] == ps[a]
    {
      if ps[i].name in table {
        return None;
      }
      table := table[ps[i].name := ps[i]];
    }
    routes := Some(table);
  }

  /** Start-up wiring: when each factory builds a provider of its registered name, the service starts exactly when every
      enabled name is registered and builds, never panics on the way, and routes exactly the enabled names. */
  method Wire(env: Option<string>, registry: Registry) returns (started: bool, routes: map<string, Provider>)
    requires forall name <- registry.providers :: registry.providers[name].Builds? ==>
               registry.providers[name].provider.name == name
    ensures var enabled := if env.None? then ["jsm"] else Firsts(Entries(Split(env.value)));
            && (started <==> forall name <- enabled :: name in registry.providers && registry.providers[name].Builds?)
            && (started ==> forall name :: name in routes <==> name in enabled)
            && (started ==> forall name <- routes :: routes[name].name == name)
  {
    var enabled := Csv(env, ["jsm"]);
    routes := map[];
    var built := registry.Build(enabled);
    if built.None? {
      return false, routes;
    }
    var ps := built.value;
    assert forall i | 0 <= i < |ps| :: enabled[i] in enabled && ps[i].name == enabled[i];
    assert DistinctNames(ps);
    var table := NewDispatcher(ps);
    routes := table.value;
    forall name ensures name in routes <==> name in enabled {
      if name in enabled {
        var i :| 0 <= i < |enabled| && enabled[i] == name;
        assert ps[i] in ps;
      }
    }
    started := true;
  }
}
