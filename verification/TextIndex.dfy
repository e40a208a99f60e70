/** Words, queries and what they mean, for the full-text index of
    pkg/buckey_storage/index.go.  Letters and digits are the ASCII ones. */
module Words {

  predicate IsUpper(c: char) { 'A' <= c <= 'Z' }

  predicate IsWordChar(c: char) { 'a' <= c <= 'z' || IsUpper(c) || '0' <= c <= '9' }

  function LowerChar(c: char): char {
    if IsUpper(c) then (c as int - 'A' as int + 'a' as int) as char else c
  }

  function Lower(s: string): string {
    seq(|s|, i requires 0 <= i < |s| => LowerChar(s[i]))
  }

  predicate IsSpace(c: char) { c == ' ' || '\t' <= c <= '\r' }

  function TrimLeft(s: string): string {
    if s != "" && IsSpace(s[0]) then TrimLeft(s[1..]) else s
  }

  function TrimRight(s: string): string {
    if s != "" && IsSpace(s[|s| - 1]) then TrimRight(s[..|s| - 1]) else s
  }

  /** strings.TrimSpace */
  function Trim(s: string): string { TrimRight(TrimLeft(s)) }

  /** strings.FieldsFunc: the maximal runs of word characters, cur being the
      run read so far. */
  function Fields(s: string, cur: string): seq<string>
    decreases |s|
  {
    if s == "" then if cur == "" then [] else [cur]
    else if IsWordChar(s[0]) then Fields(s[1..], cur + [s[0]])
    else (if cur == "" then [] else [cur]) + Fields(s[1..], "")
  }

  function Elements<T>(s: seq<T>): set<T> { set x | x in s }

  /** The terms of a text. */
  function Terms(text: string): set<string> { Elements(Fields(Lower(text), "")) }

  /** strings.Split(s, " OR "), cur being the part read so far. */
  function SplitOr(s: string, cur: string): seq<string>
    decreases |s|
  {
    if s == "" then [cur]
    else if " OR " <= s then [cur] + SplitOr(s[4..], "")
    else SplitOr(s[1..], cur + [s[0]])
  }

  /** A part of a query matches a text that has all its terms; no terms, no match. */
  predicate PartMatches(part: string, text: string) {
    var terms := Terms(Trim(part));
    terms != {} && terms <= Terms(text)
  }

  /** A query matches a text that one of its parts matches. */
  predicate Matches(query: string, text: string) {
    exists i :: 0 <= i < |SplitOr(query, "")| && PartMatches(SplitOr(query, "")[i], text)
  }

  predicate HasTermWithPrefix(prefix: string, text: string) {
    exists t :: t in Terms(text) && prefix <= t
  }

  ghost predicate NoDuplicates<T>(s: seq<T>) { forall i, j :: 0 <= i < j < |s| ==> s[i] != s[j] }

  /** x occurs in s, and y does not before it. */
  ghost predicate Before(s: seq<string>, x: string, y: string) {
    exists a :: 0 <= a < |s| && s[a] == x && y !in s[..a]
  }

  /** The words of `out` stand in the order in which they first occur in s. */
  ghost predicate InFirstOrder(out: seq<string>, s: seq<string>) {
    forall i, j :: 0 <= i < j < |out| ==> Before(s, out[i], out[j])
  }

  lemma FirstOrderLonger(out: seq<string>, s: seq<string>, p: string)
    requires InFirstOrder(out, s)
    ensures InFirstOrder(out, s + [p])
  {
    forall i, j | 0 <= i < j < |out| ensures Before(s + [p], out[i], out[j]) {
      assert Before(s, out[i], out[j]);
      var a :| 0 <= a < |s| && s[a] == out[i] && out[j] !in s[..a];
      assert (s + [p])[..a] == s[..a] && (s + [p])[a] == out[i];
    }
  }

  lemma FirstOrderNext(out: seq<string>, s: seq<string>, p: string)
    requires InFirstOrder(out, s) && Elements(out) == Elements(s) && p !in s
    ensures InFirstOrder(out + [p], s + [p])
  {
    FirstOrderLonger(out, s, p);
    forall i | 0 <= i < |out| ensures Before(s + [p], out[i], p) {
      assert out[i] in Elements(out);
      var a :| 0 <= a < |s| && s[a] == out[i];
      assert (s + [p])[..a] == s[..a] && (s + [p])[a] == out[i];
    }
    forall i, j | 0 <= i < j < |out + [p]| ensures Before(s + [p], (out + [p])[i], (out + [p])[j]) {
      if j < |out| { assert Before(s + [p], out[i], out[j]); }
    }
  }

  method Tokenize(text: string) returns (out: seq<string>)
    ensures NoDuplicates(out) && Elements(out) == Terms(text)
    ensures InFirstOrder(out, Fields(Lower(text), ""))
  {
    var parts := Fields(Lower(text), "");
    var seen: set<string> := {};
    out := [];
    for i := 0 to |parts|
      invariant NoDuplicates(out) && Elements(out) == seen == Elements(parts[..i])
      invariant InFirstOrder(out, parts[..i])
    {
      var p := parts[i];
      assert parts[..i + 1] == parts[..i] + [p];
      assert Elements(parts[..i + 1]) == Elements(parts[..i]) + {p};
      if p == "" || p in seen {
        FieldsNonEmpty(Lower(text), "");
        FirstOrderLonger(out, parts[..i], p);
        continue;
      }
      assert p !in parts[..i];
      FirstOrderNext(out, parts[..i], p);
      assert Elements(out + [p]) == Elements(out) + {p};
      seen, out := seen + {p}, out + [p];
    }
    assert parts[..|parts|] == parts;
  }

  lemma {:induction false} FieldsNonEmpty(s: string, cur: string)
    ensures forall i :: 0 <= i < |Fields(s, cur)| ==> Fields(s, cur)[i] != ""
    decreases |s|
  {
    if s != "" { FieldsNonEmpty(s[1..], if IsWordChar(s[0]) then cur + [s[0]] else ""); }
  }
}

/** The inverted index against a scan of all the stored texts. */
module TextIndex {
  import opened Options
  import opened Words

  type Postings = map<string, set<string>>

  /** A key is posted under a term exactly when its text has the term, and no
      posting set is empty. */
  ghost predicate Indexes(inv: Postings, raw: map<string, string>) {
    && (forall t, k :: t in inv && k in inv[t] ==> k in raw && t in Terms(raw[k]))
    && (forall k, t :: k in raw && t in Terms(raw[k]) ==> t in inv && k in inv[t])
    && (forall t :: t in inv ==> inv[t] != {})
  }

  /** The postings depend on the texts alone, not on how they came to be. */
  lemma PostingsDetermined(inv1: Postings, inv2: Postings, raw: map<string, string>)
    requires Indexes(inv1, raw) && Indexes(inv2, raw)
    ensures inv1 == inv2
  {
    SameTerms(inv1, inv2, raw);
    SameTerms(inv2, inv1, raw);
    forall t | t in inv1 ensures inv1[t] == inv2[t] {
      SamePostings(inv1, inv2, raw, t);
      SamePostings(inv2, inv1, raw, t);
    }
  }

  lemma SameTerms(inv1: Postings, inv2: Postings, raw: map<string, string>)
    requires Indexes(inv1, raw) && Indexes(inv2, raw)
    ensures inv1.Keys <= inv2.Keys
  {
    forall t | t in inv1 ensures t in inv2 {
      var k :| k in inv1[t];
      assert t in Terms(raw[k]);
    }
  }

  lemma SamePostings(inv1: Postings, inv2: Postings, raw: map<string, string>, t: string)
    requires Indexes(inv1, raw) && Indexes(inv2, raw) && t in inv1 && t in inv2
    ensures inv1[t] <= inv2[t]
  {
    forall k | k in inv1[t] ensures k in inv2[t] {
      assert k in raw && t in Terms(raw[k]);
    }
  }

  lemma KeysWithNext(inv: Postings, raw: map<string, string>, terms: seq<string>, t: string)
    requires Indexes(inv, raw) && t in inv
    ensures KeysWith(raw, Elements(terms + [t]))
         == if terms == [] then inv[t] else KeysWith(raw, Elements(terms)) * inv[t]
  {
    assert Elements(terms + [t]) == Elements(terms) + {t};
    assert forall k :: k in inv[t] <==> k in raw && t in Terms(raw[k]);
  }

  lemma PrefixMeaning(inv: Postings, raw: map<string, string>, p: string, result: set<string>)
    requires Indexes(inv, raw)
    requires forall k :: k in result <==> exists t :: t in inv && p <= t && k in inv[t]
    ensures forall k :: k in result <==> k in raw && HasTermWithPrefix(p, raw[k])
  {
    forall k | k in raw && HasTermWithPrefix(p, raw[k]) ensures k in result {
      var t :| t in Terms(raw[k]) && p <= t;
      assert t in inv && k in inv[t];
    }
    forall k | k in result ensures k in raw && HasTermWithPrefix(p, raw[k]) {
      var t :| t in inv && p <= t && k in inv[t];
      assert t in Terms(raw[k]);
    }
  }

  /** keysFromSet: each key once, in no particular order. */
  method KeysFromSet(m: set<string>) returns (keys: seq<string>)
    ensures NoDuplicates(keys) && forall k :: k in keys <==> k in m
  {
    keys := [];
    var todo := m;
    while todo != {}
      invariant todo <= m && NoDuplicates(keys)
      invariant forall k :: k in keys <==> k in m && k !in todo
      decreases |todo|
    {
      var k :| k in todo;
      keys, todo := keys + [k], todo - {k};
    }
  }

  predicate ValidKey(key: string) { key != "" && |key| <= 1024 }

  class Index {
    var inv: Postings
    var raw: map<string, string>                    // fullTextRaw
    var records: map<string, map<string, string>>

    ghost predicate Valid()
      reads this
    {
      Indexes(inv, raw)
    }

    constructor ()
      ensures Valid() && raw == map[] && records == map[]
    {
      inv, raw, records := map[], map[], map[];
    }

    /** Take key out of every posting set, dropping sets that become empty.  The
        terms are visited in no particular order. */
    method RemovePostings(key: string)
      requires Valid()
      modifies this`inv
      ensures Indexes(inv, raw - {key})
    {
      inv := Strip(inv, key);
      Removed(old(inv), inv, raw, key);
    }

    static method Strip(inv0: Postings, key: string) returns (inv: Postings)
      ensures inv.Keys <= inv0.Keys
      ensures forall t :: t in inv ==> inv[t] == inv0[t] - {key} != {}
      ensures forall t :: t in inv0 && t !in inv ==> inv0[t] <= {key}
    {
      inv := inv0;
      var todo := inv.Keys;
      while todo != {}
        invariant todo <= inv.Keys <= inv0.Keys
        invariant forall t :: t in todo ==> inv[t] == inv0[t]
        invariant forall t :: t in inv && t !in todo ==> inv[t] == inv0[t] - {key} != {}
        invariant forall t :: t in inv0 && t !in inv ==> inv0[t] <= {key}
        decreases |todo|
      {
        var t :| t in todo;
        var keys := inv[t] - {key};
        inv := if keys == {} then inv - {t} else inv[t := keys];
        todo := todo - {t};
      }
    }

    /** Post key under each of its terms. */
    method AddPostings(key: string, tokens: seq<string>)
      modifies this`inv
      ensures forall t :: t in inv <==> t in old(inv) || t in tokens
      ensures forall t :: t in inv ==>
                inv[t] == (if t in old(inv) then old(inv)[t] else {}) + (if t in tokens then {key} else {})
    {
      for i := 0 to |tokens|
        invariant forall t :: t in inv <==> t in old(inv) || t in tokens[..i]
        invariant forall t :: t in inv ==>
                    inv[t] == (if t in old(inv) then old(inv)[t] else {}) + (if t in tokens[..i] then {key} else {})
      {
        var t := tokens[i];
        assert forall u :: u in tokens[..i + 1] <==> u in tokens[..i] || u == t;
        if t !in inv { inv := inv[t := {}]; }
        inv := inv[t := inv[t] + {key}];
      }
      assert tokens[..|tokens|] == tokens;
    }

    method IndexFullText(key: string, text: string)
      requires Valid()
      modifies this
      ensures Valid() && records == old(records)
      ensures raw == if ValidKey(key) then old(raw)[key := text] else old(raw)
    {
      if !ValidKey(key) { return; }
      var tokens := Tokenize(text);
      RemovePostings(key);
      ghost var removed := inv;
      AddPostings(key, tokens);
      Reindexed(removed, inv, raw, key, text, tokens);
      raw := raw[key := text];
    }

    /** The AND loop over the terms of one part: None if a term is unknown. */
    method Intersect(terms: seq<string>) returns (found: Option<set<string>>)
      requires Valid() && terms != []
      ensures found.None? ==> KeysWith(raw, Elements(terms)) == {}
      ensures found.Some? ==> found.value == KeysWith(raw, Elements(terms))
    {
      found := None;
      for j := 0 to |terms|
        invariant found.None? <==> j == 0
        invariant found.Some? ==> found.value == KeysWith(raw, Elements(terms[..j]))
      {
        var t := terms[j];
        if t !in inv {
          assert t in Elements(terms) && forall k :: k in raw ==> t !in Terms(raw[k]);
          return None;
        }
        KeysWithNext(inv, raw, terms[..j], t);
        assert terms[..j + 1] == terms[..j] + [t];
        found := Some(if found.None? then inv[t] else found.value * inv[t]);
      }
      assert terms[..|terms|] == terms;
    }

    method Search(query: string) returns (keys: seq<string>)
      requires Valid()
      ensures NoDuplicates(keys)
      ensures forall k :: k in keys <==> k in raw && Matches(query, raw[k])
    {
      var orParts := SplitOr(query, "");
      var result: set<string> := {};
      for i := 0 to |orParts|
        invariant result == KeysMatching(raw, orParts[..i])
      {
        MatchNext(raw, orParts, i);
        var terms := Tokenize(Trim(orParts[i]));
        if |terms| == 0 {
          assert Elements(terms) == {};
          continue;
        }
        assert terms[0] in Elements(terms);
        var found := Intersect(terms);
        if found.None? { continue; }
        result := result + found.value;
      }
      assert orParts[..|orParts|] == orParts;
      keys := KeysFromSet(result);
    }

    method SearchPrefix(termPrefix: string) returns (keys: seq<string>)
      requires Valid()
      ensures NoDuplicates(keys)
      ensures var p := Lower(Trim(termPrefix));
              forall k :: k in keys <==> p != "" && k in raw && HasTermWithPrefix(p, raw[k])
    {
      var p := Lower(Trim(termPrefix));
      if p == "" { return []; }
      var result: set<string> := {};
      var todo := inv.Keys;
      while todo != {}
        invariant todo <= inv.Keys
        invariant forall k :: k in result <==> exists t :: t in inv && t !in todo && p <= t && k in inv[t]
        decreases |todo|
      {
        var term :| term in todo;
        if p <= term { result := result + inv[term]; }
        todo := todo - {term};
      }
      PrefixMeaning(inv, raw, p, result);
      keys := KeysFromSet(result);
    }

    method RemoveKey(key: string)
      requires Valid()
      modifies this
      ensures Valid() && raw == old(raw) - {key} && records == old(records) - {key}
    {
      RemovePostings(key);
      raw := raw - {key};
      records := records - {key};
    }
  }

  // ---------- what searches mean ----------

  /** The keys whose text has all the given terms. */
  ghost function KeysWith(raw: map<string, string>, terms: set<string>): set<string> {
    set k | k in raw && terms <= Terms(raw[k])
  }

  /** Naive evaluation of an OR of parts over every stored text. */
  ghost function KeysMatching(raw: map<string, string>, parts: seq<string>): set<string> {
    set k | k in raw && exists i :: 0 <= i < |parts| && PartMatches(parts[i], raw[k])
  }

  lemma MatchNext(raw: map<string, string>, parts: seq<string>, i: nat)
    requires i < |parts|
    ensures var terms := Terms(Trim(parts[i]));
            KeysMatching(raw, parts[..i + 1])
            == KeysMatching(raw, parts[..i]) + if terms == {} then {} else KeysWith(raw, terms)
  {
    var terms := Terms(Trim(parts[i]));
    var before, after := KeysMatching(raw, parts[..i]), KeysMatching(raw, parts[..i + 1]);
    forall k | k in before ensures k in after {
      var j :| 0 <= j < i && PartMatches(parts[..i][j], raw[k]);
      assert PartMatches(parts[..i + 1][j], raw[k]);
    }
    forall k | k in KeysWith(raw, terms) && terms != {} ensures k in after {
      assert PartMatches(parts[..i + 1][i], raw[k]);
    }
    forall k | k in after ensures k in before || (terms != {} && k in KeysWith(raw, terms)) {
      var j :| 0 <= j < i + 1 && PartMatches(parts[..i + 1][j], raw[k]);
      if j < i { assert PartMatches(parts[..i][j], raw[k]); }
    }
  }

  lemma Removed(inv: Postings, inv': Postings, raw: map<string, string>, key: string)
    requires Indexes(inv, raw) && inv'.Keys <= inv.Keys
    requires forall t :: t in inv' ==> inv'[t] == inv[t] - {key} != {}
    requires forall t :: t in inv && t !in inv' ==> inv[t] <= {key}
    ensures Indexes(inv', raw - {key})
  {
    forall k, t | k in raw - {key} && t in Terms((raw - {key})[k]) ensures t in inv' && k in inv'[t] {
      assert t in inv && k in inv[t];
    }
  }

  lemma Reindexed(inv: Postings, inv': Postings, raw: map<string, string>, key: string, text: string,
                  tokens: seq<string>)
    requires Indexes(inv, raw - {key}) && Elements(tokens) == Terms(text)
    requires forall t :: t in inv' <==> t in inv || t in tokens
    requires forall t :: t in inv' ==>
               inv'[t] == (if t in inv then inv[t] else {}) + (if t in tokens then {key} else {})
    ensures Indexes(inv', raw[key := text])
  {
    var raw' := raw[key := text];
    assert forall t :: t in tokens <==> t in Terms(text);
    forall t, k | t in inv' && k in inv'[t] ensures k in raw' && t in Terms(raw'[k]) {
      if t in inv && k in inv[t] { assert k in raw - {key}; }
    }
    forall k, t | k in raw' && t in Terms(raw'[k]) ensures t in inv' && k in inv'[t] {
      if k != key { assert k in raw - {key} && t in Terms((raw - {key})[k]); }
    }
  }
}
