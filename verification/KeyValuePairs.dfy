/** The parser of "key=value;key=value" settings. */
module KeyValuePairs {

  /** The pairs as a map, or the panic on the first part that is not a pair. */
  datatype Parsed = Pairs(m: map<string, string>) | Panic(part: string)

  /** The library's split around a one-character separator. */
  function Split(s: string, sep: char): (parts: seq<string>)
    ensures |parts| > 0
  {
    if s == [] then [[]]
    else
      var rest := Split(s[1..], sep);
      if s[0] == sep then [[]] + rest else [[s[0]] + rest[0]] + rest[1..]
  }

  ghost function Join(parts: seq<string>, sep: char): string {
    if parts == [] then []
    else if |parts| == 1 then parts[0]
    else parts[0] + [sep] + Join(parts[1..], sep)
  }

  predicate IsPair(part: string) {
    |Split(part, '=')| == 2 && |Split(part, '=')[0]| > 0
  }

  function AddPair(m: map<string, string>, part: string): map<string, string>
    requires IsPair(part)
  {
    m[Split(part, '=')[0] := Split(part, '=')[1]]
  }

  /** Parts taken in order; the first that is not a pair stops the parser. */
  function FromParts(parts: seq<string>): Parsed {
    if parts == [] then Pairs(map[])
    else
      match FromParts(parts[..|parts| - 1])
      case Panic(part) => Panic(part)
      case Pairs(m) =>
        var last := parts[|parts| - 1];
        if IsPair(last) then Pairs(AddPair(m, last)) else Panic(last)
  }

  /** The parts that count: an empty last one does not. */
  function Parts(s: string): seq<string> {
    var parts := Split(s, ';');
    if |parts[|parts| - 1]| == 0 then parts[..|parts| - 1] else parts
  }

  /** The parser. Go's nil map for the empty string is the empty map here. */
  method ConvertKVPairsToMap(kvPairsStr: string) returns (r: Parsed)
    ensures r == FromParts(Parts(kvPairsStr))
  {
    if |kvPairsStr| == 0 {
      return Pairs(map[]);
    }
    var kvPairMap := map[];
    var kvPairs := Split(kvPairsStr, ';');
    ghost var counted := Parts(kvPairsStr);
    for i := 0 to |kvPairs|
      invariant i <= |counted| && FromParts(counted[..i]) == Pairs(kvPairMap)
    {
      var kvPair := kvPairs[i];
      if i == |kvPairs| - 1 && |kvPair| == 0 {
        assert counted[..i] == counted;
        return Pairs(kvPairMap);
      }
      assert counted[..i + 1][..i] == counted[..i];
      var kv := Split(kvPair, '=');
      if |kv| != 2 || |kv[0]| == 0 {
        PanicStays(counted, i);
        return Panic(kvPair);
      }
      kvPairMap := kvPairMap[kv[0] := kv[1]];
    }
    assert counted[..|kvPairs|] == counted;
    r := Pairs(kvPairMap);
  }

  lemma {:induction false} PanicStays(parts: seq<string>, i: nat)
    requires i < |parts| && FromParts(parts[..i + 1]).Panic?
    ensures FromParts(parts) == FromParts(parts[..i + 1])
    decreases |parts|
  {
    if i + 1 < |parts| {
      assert parts[..|parts| - 1][..i + 1] == parts[..i + 1];
      PanicStays(parts[..|parts| - 1], i);
    } else {
      assert parts[..i + 1] == parts;
    }
  }

  // ---------- splitting and joining ----------

  lemma {:induction false} SplitJoin(s: string, sep: char)
    ensures Join(Split(s, sep), sep) == s
    ensures forall part :: part in Split(s, sep) ==> sep !in part
  {
    if s == [] {
    } else {
      SplitJoin(s[1..], sep);
      var rest := Split(s[1..], sep);
      if s[0] == sep {
        assert ([[]] + rest)[1..] == rest;
      } else {
        var parts := [[s[0]] + rest[0]] + rest[1..];
        assert parts[1..] == rest[1..];
        assert s == [s[0]] + s[1..];
      }
    }
  }

  lemma {:induction false} SplitOne(s: string, sep: char)
    requires sep !in s
    ensures Split(s, sep) == [s]
  {
    if s == [] {
    } else {
      SplitOne(s[1..], sep);
      assert s == [s[0]] + s[1..];
    }
  }

  lemma {:induction false} SplitFirst(s: string, t: string, sep: char)
    requires sep !in s
    ensures Split(s + [sep] + t, sep) == [s] + Split(t, sep)
  {
    if s == [] {
      assert s + [sep] + t == [sep] + t;
    } else {
      SplitFirst(s[1..], t, sep);
      assert (s + [sep] + t)[1..] == s[1..] + [sep] + t;
      assert s == [s[0]] + s[1..];
    }
  }

  lemma {:induction false} JoinSplit(parts: seq<string>, sep: char)
    requires parts != [] && forall part :: part in parts ==> sep !in part
    ensures Split(Join(parts, sep), sep) == parts
  {
    if |parts| == 1 {
      SplitOne(parts[0], sep);
    } else {
      JoinSplit(parts[1..], sep);
      SplitFirst(parts[0], Join(parts[1..], sep), sep);
    }
  }

  // ---------- the language ----------

  datatype Entry = Entry(key: string, value: string)

  ghost predicate IsEntry(e: Entry) {
    e.key != [] && ';' !in e.key && '=' !in e.key && ';' !in e.value && '=' !in e.value
  }

  ghost predicate AreEntries(es: seq<Entry>) {
    forall e :: e in es ==> IsEntry(e)
  }

  ghost function RenderEntry(e: Entry): string {
    e.key + ['='] + e.value
  }

  ghost function RenderParts(es: seq<Entry>): seq<string> {
    seq(|es|, i requires 0 <= i < |es| => RenderEntry(es[i]))
  }

  /** "k1=v1;k2=v2;...", with or without a trailing ';'. */
  ghost function Render(es: seq<Entry>, trailing: bool): string {
    Join(RenderParts(es), ';') + if trailing then [';'] else []
  }

  /** The entries as a map: a later entry for a key replaces an earlier one. */
  ghost function ToMap(es: seq<Entry>): map<string, string> {
    if es == [] then map[] else ToMap(es[..|es| - 1])[es[|es| - 1].key := es[|es| - 1].value]
  }

  lemma {:induction false} SplitEntry(e: Entry)
    requires IsEntry(e)
    ensures Split(RenderEntry(e), '=') == [e.key, e.value] && IsPair(RenderEntry(e))
    ensures ';' !in RenderEntry(e) && RenderEntry(e) != []
  {
    SplitFirst(e.key, e.value, '=');
    SplitOne(e.value, '=');
  }

  lemma {:induction false} FromRendered(es: seq<Entry>)
    requires AreEntries(es)
    ensures FromParts(RenderParts(es)) == Pairs(ToMap(es))
  {
    if es == [] {
    } else {
      var init, last := es[..|es| - 1], es[|es| - 1];
      FromRendered(init);
      SplitEntry(last);
      assert RenderParts(es)[..|es| - 1] == RenderParts(init);
    }
  }

  lemma {:induction false} JoinTrailing(parts: seq<string>, sep: char)
    requires parts != []
    ensures Join(parts + [[]], sep) == Join(parts, sep) + [sep]
  {
    assert (parts + [[]])[1..] == parts[1..] + [[]];
    if |parts| > 1 {
      JoinTrailing(parts[1..], sep);
    } else {
      assert Join([[]], sep) == [];
    }
  }

  lemma {:induction false} PartsOfRendered(es: seq<Entry>, trailing: bool)
    requires AreEntries(es) && (trailing ==> es != [])
    ensures Parts(Render(es, trailing)) == RenderParts(es)
  {
    var parts := RenderParts(es);
    forall part | part in parts
      ensures ';' !in part && part != []
    {
      var i :| 0 <= i < |es| && part == RenderEntry(es[i]);
      SplitEntry(es[i]);
    }
    if es != [] {
      if trailing {
        JoinTrailing(parts, ';');
        JoinSplit(parts + [[]], ';');
      } else {
        assert Join(parts, ';') + [] == Join(parts, ';');
        JoinSplit(parts, ';');
      }
    }
  }

  /** Rendering any entries and parsing them gives their map back. */
  lemma {:induction false} RoundTrip(es: seq<Entry>, trailing: bool)
    requires AreEntries(es) && (trailing ==> es != [])
    ensures FromParts(Parts(Render(es, trailing))) == Pairs(ToMap(es))
  {
    PartsOfRendered(es, trailing);
    FromRendered(es);
  }

  /** The map's entries in the order of the keys. */
  ghost function EntriesOf(m: map<string, string>, keys: seq<string>): seq<Entry>
    requires forall k :: k in keys ==> k in m
  {
    seq(|keys|, i requires 0 <= i < |keys| => assert keys[i] in keys; Entry(keys[i], m[keys[i]]))
  }

  /** In particular for any map of keys and values, written in any order. */
  lemma {:induction false} MapRoundTrip(m: map<string, string>, keys: seq<string>, trailing: bool)
    requires forall k :: k in keys <==> k in m
    requires forall k :: k in m ==> IsEntry(Entry(k, m[k]))
    requires trailing ==> keys != []
    ensures FromParts(Parts(Render(EntriesOf(m, keys), trailing))) == Pairs(m)
  {
    var es := EntriesOf(m, keys);
    RoundTrip(es, trailing);
    forall e | e in es
      ensures e.key in m && m[e.key] == e.value
    {}
    forall k | k in m
      ensures k in KeysOf(es)
    {
      var i :| 0 <= i < |keys| && keys[i] == k;
      assert es[i].key == k;
    }
    ToMapOf(es, m);
    assert ToMap(es) == m;
  }

  ghost function KeysOf(es: seq<Entry>): set<string> {
    set e | e in es :: e.key
  }

  lemma {:induction false} ToMapOf(es: seq<Entry>, m: map<string, string>)
    requires forall e :: e in es ==> e.key in m && m[e.key] == e.value
    ensures ToMap(es).Keys == KeysOf(es)
    ensures forall k :: k in ToMap(es) ==> k in m && m[k] == ToMap(es)[k]
  {
    if es == [] {
    } else {
      ToMapOf(es[..|es| - 1], m);
      assert KeysOf(es) == KeysOf(es[..|es| - 1]) + {es[|es| - 1].key};
    }
  }

  lemma {:induction false} KeyAndValue(part: string) returns (key: string, value: string)
    requires IsPair(part)
    ensures key != [] && '=' !in key && '=' !in value && part == key + ['='] + value
  {
    var kv := Split(part, '=');
    SplitJoin(part, '=');
    key, value := kv[0], kv[1];
    assert key in kv && value in kv && kv[1..] == [value];
    assert Join(kv, '=') == key + ['='] + Join(kv[1..], '=');
  }

  lemma PairIsEntry(part: string) returns (e: Entry)
    requires IsPair(part) && ';' !in part
    ensures IsEntry(e) && RenderEntry(e) == part
  {
    var key, value := KeyAndValue(part);
    e := Entry(key, value);
  }

  lemma {:induction false} PairsAreEntries(parts: seq<string>) returns (es: seq<Entry>)
    requires FromParts(parts).Pairs? && forall part :: part in parts ==> ';' !in part
    ensures AreEntries(es) && RenderParts(es) == parts
  {
    if parts == [] {
      es := [];
    } else {
      es := PairsAreEntries(parts[..|parts| - 1]);
      var e := PairIsEntry(parts[|parts| - 1]);
      es := es + [e];
      assert parts == parts[..|parts| - 1] + [parts[|parts| - 1]];
    }
  }

  /** The parser accepts nothing but rendered entries. */
  lemma {:induction false} AcceptedIsRendered(s: string) returns (es: seq<Entry>, trailing: bool)
    requires FromParts(Parts(s)).Pairs?
    ensures AreEntries(es) && (trailing ==> es != []) && s == Render(es, trailing)
  {
    PartsJoin(s);
    es := PairsAreEntries(Parts(s));
    trailing := es != [] && Parts(s) != Split(s, ';');
  }

  lemma DropEmptyLast(all: seq<string>, parts: seq<string>, sep: char)
    requires all != [] && parts == if |all[|all| - 1]| == 0 then all[..|all| - 1] else all
    ensures forall i :: 0 <= i < |parts| ==> parts[i] == all[i]
    ensures Join(all, sep) == if parts == [] || parts == all then Join(parts, sep) else Join(parts, sep) + [sep]
  {
    if parts != all {
      assert all == parts + [[]];
      if parts == [] {
        assert all == [[]];
      } else {
        JoinTrailing(parts, sep);
      }
    }
  }

  lemma PartsJoin(s: string)
    ensures forall part :: part in Parts(s) ==> ';' !in part
    ensures s == if Parts(s) == [] || Parts(s) == Split(s, ';') then Join(Parts(s), ';')
        else Join(Parts(s), ';') + [';']
  {
    SplitJoin(s, ';');
    DropEmptyLast(Split(s, ';'), Parts(s), ';');
    forall i | 0 <= i < |Parts(s)|
      ensures ';' !in Parts(s)[i]
    {
      assert Parts(s)[i] == Split(s, ';')[i] && Split(s, ';')[i] in Split(s, ';');
    }
  }

  /** The accepted language is exactly the rendered entry lists, and the result is their map. */
  lemma {:induction false} Language(s: string, m: map<string, string>)
    ensures FromParts(Parts(s)) == Pairs(m) <==>
            exists es, trailing :: AreEntries(es) && (trailing ==> es != []) && s == Render(es, trailing)
                && m == ToMap(es)
  {
    if FromParts(Parts(s)) == Pairs(m) {
      var es, trailing := AcceptedIsRendered(s);
      RoundTrip(es, trailing);
    }
    forall es, trailing | AreEntries(es) && (trailing ==> es != []) && s == Render(es, trailing) && m == ToMap(es)
      ensures FromParts(Parts(s)) == Pairs(m)
    {
      RoundTrip(es, trailing);
    }
  }

  lemma SplitAt(part: string, i: nat, key: string, value: string)
    requires i < |part| && part[i] == '=' && key == part[..i] && value == part[i + 1..]
    requires '=' !in key && '=' !in value
    ensures Split(part, '=') == [key, value]
  {
    assert part == key + ['='] + value;
    SplitFirst(key, value, '=');
    SplitOne(value, '=');
  }

  lemma PairSplits(part: string) returns (i: nat)
    requires IsPair(part)
    ensures 0 < i < |part| && part[i] == '=' && '=' !in part[..i] && '=' !in part[i + 1..]
  {
    var key, value := KeyAndValue(part);
    i := |key|;
    assert part[..i] == key && part[i] == '=' && part[i + 1..] == value;
  }

  /** A part is a pair if and only if it has exactly one '=', and not as its first character; what is before it
      is the key, and what is after it the value. */
  lemma {:induction false} PairIff(part: string, m: map<string, string>)
    ensures IsPair(part) <==>
            exists i :: 0 < i < |part| && part[i] == '=' && '=' !in part[..i] && '=' !in part[i + 1..]
    ensures forall i :: 0 < i < |part| && part[i] == '=' && '=' !in part[..i] && '=' !in part[i + 1..] ==>
              IsPair(part) && AddPair(m, part) == m[part[..i] := part[i + 1..]]
  {
    forall i | 0 < i < |part| && part[i] == '=' && '=' !in part[..i] && '=' !in part[i + 1..]
      ensures IsPair(part) && AddPair(m, part) == m[part[..i] := part[i + 1..]]
    {
      SplitAt(part, i, part[..i], part[i + 1..]);
    }
    if IsPair(part) {
      var _ := PairSplits(part);
    }
  }

  /** A panic names a part of the string that is no pair, and every part before it is one. */
  lemma {:induction false} PanicIsFirst(parts: seq<string>) returns (i: nat)
    requires FromParts(parts).Panic?
    ensures i < |parts| && parts[i] == FromParts(parts).part && !IsPair(parts[i])
    ensures forall j :: 0 <= j < i ==> IsPair(parts[j])
  {
    var init := parts[..|parts| - 1];
    if FromParts(init).Panic? {
      i := PanicIsFirst(init);
    } else {
      i := |parts| - 1;
      PairsAll(init);
    }
  }

  lemma {:induction false} PairsAll(parts: seq<string>)
    requires FromParts(parts).Pairs?
    ensures forall j :: 0 <= j < |parts| ==> IsPair(parts[j])
  {
    if parts == [] {
    } else {
      PairsAll(parts[..|parts| - 1]);
    }
  }
}
