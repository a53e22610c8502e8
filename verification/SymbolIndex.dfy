/** The symbol lookup of the descriptor index: find the last key not above the name, and test that one key.
    The header argues in prose that this finds what a search through all keys would; here is the proof, and
    exactly how much of the restriction on symbol characters it needs. */
module SymbolIndex {
  import opened Basics

  /** The order of std::map<string, _>. */
  predicate LessEq(a: string, b: string) {
    a == "" || (b != "" && (a[0] < b[0] || (a[0] == b[0] && LessEq(a[1..], b[1..]))))
  }

  /** The arguments are equal, or super names a parent of sub: "foo.bar" is one of "foo.bar.baz" but not
      of "foo.barbaz". */
  predicate IsSubSymbol(sub: string, super: string) {
    sub == super || (|super| < |sub| && sub[..|super|] == super && sub[|super|] == '.')
  }

  lemma IsSubSymbolIff(sub: string, super: string)
    ensures IsSubSymbol(sub, super) <==> sub == super || exists rest :: sub == super + "." + rest
    ensures IsSubSymbol("foo.bar.baz", "foo.bar") && !IsSubSymbol("foo.barbaz", "foo.bar")
  {
    if IsSubSymbol(sub, super) && sub != super {
      assert sub == super + "." + sub[|super| + 1..];
    }
  }

  predicate ValidateSymbolName(name: string) {
    forall i | 0 <= i < |name| ::
      name[i] == '.' || name[i] == '_' || '0' <= name[i] <= '9' || 'A' <= name[i] <= 'Z' || 'a' <= name[i] <= 'z'
  }

  /** The keys of the map, in iteration order. */
  predicate Sorted(keys: seq<string>) {
    forall i, j | 0 <= i < j < |keys| :: LessEq(keys[i], keys[j]) && keys[i] != keys[j]
  }

  /** The map's invariant: no key is a parent of another. */
  predicate NoParents(keys: seq<string>) {
    forall i, j | 0 <= i < |keys| && 0 <= j < |keys| && i != j :: !IsSubSymbol(keys[i], keys[j])
  }

  function FindLastLessOrEqual(keys: seq<string>, name: string): Option<string> {
    if keys == [] then None
    else if LessEq(keys[|keys| - 1], name) then Some(keys[|keys| - 1])
    else FindLastLessOrEqual(keys[..|keys| - 1], name)
  }

  /** The two-step lookup. */
  function FindSymbol(keys: seq<string>, name: string): Option<string> {
    match FindLastLessOrEqual(keys, name)
    case None => None
    case Some(found) => if IsSubSymbol(name, found) then Some(found) else None
  }

  /** What a search through all the keys would say about that answer. */
  predicate Right(keys: seq<string>, name: string, answer: Option<string>) {
    match answer
    case Some(key) => key in keys && IsSubSymbol(name, key)
    case None => forall key <- keys :: !IsSubSymbol(name, key)
  }

  // ----- the order -----

  /** One is a prefix of the other, or has the lesser character where they first differ. */
  lemma {:induction false} LessEqIff(a: string, b: string)
    ensures LessEq(a, b) <==> a <= b || exists k: nat :: FirstDiffersAt(a, b, k) && a[k] < b[k]
  {
    if a == "" {
      assert a <= b;
    } else if b == "" {
    } else if a[0] != b[0] {
      assert FirstDiffersAt(a, b, 0);
    } else {
      LessEqIff(a[1..], b[1..]);
      assert a <= b <==> a[1..] <= b[1..] by { assert a == [a[0]] + a[1..] && b == [b[0]] + b[1..]; }
      forall k: nat | FirstDiffersAt(a[1..], b[1..], k) ensures FirstDiffersAt(a, b, k + 1) {
        assert a[..k + 1] == [a[0]] + a[1..][..k] && b[..k + 1] == [b[0]] + b[1..][..k];
      }
      forall k: nat | FirstDiffersAt(a, b, k) ensures k > 0 && FirstDiffersAt(a[1..], b[1..], k - 1) {
        assert a[1..][..k - 1] == a[..k][1..] && b[1..][..k - 1] == b[..k][1..];
      }
    }
  }

  predicate FirstDiffersAt(a: string, b: string, k: nat) {
    k < |a| && k < |b| && a[..k] == b[..k] && a[k] != b[k]
  }

  lemma {:induction false} Reflexive(a: string)
    ensures LessEq(a, a)
  {
    if a != "" { Reflexive(a[1..]); }
  }

  lemma {:induction false} Antisymmetric(a: string, b: string)
    requires LessEq(a, b) && LessEq(b, a)
    ensures a == b
  {
    if a != "" && b != "" {
      Antisymmetric(a[1..], b[1..]);
      assert a == [a[0]] + a[1..] && b == [b[0]] + b[1..];
    }
  }

  lemma {:induction false} Transitive(a: string, b: string, c: string)
    requires LessEq(a, b) && LessEq(b, c)
    ensures LessEq(a, c)
  {
    if a != "" && a[0] == b[0] == c[0] { Transitive(a[1..], b[1..], c[1..]); }
  }

  /** What lies between a string and an extension of it extends it too, with a next character not above. */
  lemma {:induction false} Between(prefix: string, found: string, name: string)
    requires prefix <= name && LessEq(prefix, found) && LessEq(found, name)
    ensures prefix <= found
    ensures |prefix| < |found| ==> |prefix| < |name| && found[|prefix|] <= name[|prefix|]
  {
    if prefix != "" {
      assert prefix[0] == found[0] == name[0];
      Between(prefix[1..], found[1..], name[1..]);
      assert prefix == [prefix[0]] + prefix[1..] && found == [found[0]] + found[1..];
    }
  }

  lemma {:induction false} PrefixLessEq(prefix: string, s: string)
    requires prefix <= s
    ensures LessEq(prefix, s)
  {
    if prefix != "" { PrefixLessEq(prefix[1..], s[1..]); }
  }

  lemma {:induction false} LowerNext(prefix: string, f: string, c: char)
    requires prefix <= f && |prefix| < |f| && f[|prefix|] < c
    ensures LessEq(f, prefix + [c])
  {
    if prefix != "" {
      assert f[1..][|prefix[1..]|] == f[|prefix|];
      assert (prefix + [c])[1..] == prefix[1..] + [c];
      LowerNext(prefix[1..], f[1..], c);
    }
  }

  // ----- the lookup -----

  /** Step one: the greatest of the keys that are not above the name. */
  lemma {:induction false} LastLessOrEqualIsGreatest(keys: seq<string>, name: string)
    requires Sorted(keys)
    ensures match FindLastLessOrEqual(keys, name)
            case None => forall key <- keys :: !LessEq(key, name)
            case Some(found) =>
              found in keys && LessEq(found, name) && forall key <- keys :: LessEq(key, name) ==> LessEq(key, found)
    decreases |keys|
  {
    if keys != [] {
      var last, before := keys[|keys| - 1], keys[..|keys| - 1];
      assert keys == before + [last];
      if LessEq(last, name) {
        Reflexive(last);
        assert forall key <- keys :: exists i | 0 <= i < |keys| :: keys[i] == key;
      } else {
        LastLessOrEqualIsGreatest(before, name);
      }
    }
  }

  /** At most one key can match. */
  lemma AtMostOneMatch(keys: seq<string>, name: string, a: string, b: string)
    requires NoParents(keys) && a in keys && b in keys && IsSubSymbol(name, a) && IsSubSymbol(name, b)
    ensures a == b
  {
  }

  /** No key has another one in front of a character that sorts below the dot. */
  predicate NothingBelowDot(keys: seq<string>) {
    forall i, j | 0 <= i < |keys| && 0 <= j < |keys| && keys[i] <= keys[j] && |keys[i]| < |keys[j]| ::
      keys[j][|keys[i]|] >= '.'
  }

  lemma ValidKeysNothingBelowDot(keys: seq<string>)
    requires forall i | 0 <= i < |keys| :: ValidateSymbolName(keys[i])
    ensures NothingBelowDot(keys)
  {
  }

  lemma LookupIsRight(keys: seq<string>, name: string)
    requires Sorted(keys) && NoParents(keys) && NothingBelowDot(keys)
    ensures Right(keys, name, FindSymbol(keys, name))
  {
    LastLessOrEqualIsGreatest(keys, name);
    forall key <- keys | IsSubSymbol(name, key) ensures FindSymbol(keys, name) == Some(key) {
      MatchIsFound(keys, name, key);
    }
  }

  /** Steps 3 to 9 of the argument: the found key is the match. */
  lemma MatchIsFound(keys: seq<string>, name: string, key: string)
    requires Sorted(keys) && NoParents(keys) && NothingBelowDot(keys)
    requires key in keys && IsSubSymbol(name, key)
    ensures FindLastLessOrEqual(keys, name) == Some(key)
  {
    LastLessOrEqualIsGreatest(keys, name);
    PrefixLessEq(key, name);
    var found := FindLastLessOrEqual(keys, name).value;
    Between(key, found, name);
    if found != key {
      var i :| 0 <= i < |keys| && keys[i] == key;
      var j :| 0 <= j < |keys| && keys[j] == found;
      assert |key| < |found|;
      assert keys[j][|keys[i]|] >= '.' && found[|key|] <= name[|key|] == '.';
      assert found[..|key|] == key;
      assert IsSubSymbol(keys[j], keys[i]);
    }
  }

  /** The lookup is right for every name if and only if no key stands in front of another one's character
      below the dot; the rule for symbol names keeps such characters out altogether. */
  lemma LookupRightIff(keys: seq<string>)
    requires Sorted(keys) && NoParents(keys)
    ensures (forall name :: Right(keys, name, FindSymbol(keys, name))) <==> NothingBelowDot(keys)
  {
    if NothingBelowDot(keys) {
      forall name ensures Right(keys, name, FindSymbol(keys, name)) {
        LookupIsRight(keys, name);
      }
    } else {
      var i, j :| 0 <= i < |keys| && 0 <= j < |keys| && keys[i] <= keys[j] && |keys[i]| < |keys[j]|
                  && keys[j][|keys[i]|] < '.';
      LookupMisses(keys, keys[i], keys[j]);
    }
  }

  /** With such a key in between, the name right below its parent is missed. */
  lemma LookupMisses(keys: seq<string>, key: string, other: string)
    requires Sorted(keys) && NoParents(keys) && key in keys && other in keys
    requires key <= other && |key| < |other| && other[|key|] < '.'
    ensures !Right(keys, key + ".", FindSymbol(keys, key + "."))
  {
    var name := key + ".";
    LastLessOrEqualIsGreatest(keys, name);
    LowerNext(key, other, '.');
    PrefixLessEq(key, other);
    PrefixLessEq(key, name);
    assert IsSubSymbol(name, key);
    if FindSymbol(keys, name) == Some(key) {
      Antisymmetric(key, other);
    } else if FindSymbol(keys, name).Some? && Right(keys, name, FindSymbol(keys, name)) {
      AtMostOneMatch(keys, name, FindSymbol(keys, name).value, key);
    }
  }

  /** With valid symbols the two-step lookup finds a key if and only if some key is the name or its
      parent, and then it is the only such key. */
  lemma FindSymbolFindsTheMatch(keys: seq<string>, name: string)
    requires Sorted(keys) && NoParents(keys) && forall i | 0 <= i < |keys| :: ValidateSymbolName(keys[i])
    ensures forall key :: FindSymbol(keys, name) == Some(key) <==> key in keys && IsSubSymbol(name, key)
  {
    ValidKeysNothingBelowDot(keys);
    LookupIsRight(keys, name);
    forall key | key in keys && IsSubSymbol(name, key) ensures FindSymbol(keys, name) == Some(key) {
      MatchIsFound(keys, name, key);
    }
  }
}
