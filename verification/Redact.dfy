/**
 The query-string redaction of src/norm/norm_redact.c: the three walkers, proved to do to
 the text what masking does to its list of pairs.
 */
module Redact {
  import opened Options

  const SECRETS: seq<string> := ["token", "sig", "password", "passwd", "secret", "key", "code", "auth"]

  const MARK: string := "***"

  // ---- secret keys ----------------------------------------------------------

  function Lower(c: char): char { if 'A' <= c <= 'Z' then c - 'A' + 'a' else c }

  /** `needle` is at position `i` of `s`, in lower case. */
  predicate IsAt(s: string, i: int, needle: string)
  {
    0 <= i && i + |needle| <= |s| && forall j :: 0 <= j < |needle| ==> Lower(s[i + j]) == needle[j]
  }

  predicate Contains(s: string, needle: string)
  {
    needle != "" && exists i :: 0 <= i <= |s| && IsAt(s, i, needle)
  }

  predicate Secret(key: string) { exists k :: 0 <= k < |SECRETS| && Contains(key, SECRETS[k]) }

  // ---- the query as pairs ---------------------------------------------------

  predicate IsSep(c: char) { c == '&' || c == ';' }

  predicate Ends(c: char) { c == '=' || IsSep(c) }

  /** Where a key ends. */
  function KeyEnd(q: string): (i: nat)
    ensures i <= |q| && (i < |q| ==> Ends(q[i])) && forall j :: 0 <= j < i ==> !Ends(q[j])
  {
    if q == "" || Ends(q[0]) then 0 else 1 + KeyEnd(q[1..])
  }

  /** Where a value ends. */
  function ValueEnd(q: string): (i: nat)
    ensures i <= |q| && (i < |q| ==> IsSep(q[i])) && forall j :: 0 <= j < i ==> !IsSep(q[j])
  {
    if q == "" || IsSep(q[0]) then 0 else 1 + ValueEnd(q[1..])
  }

  /** A key, its value if there is an `=`, and the separator behind it if there is one. */
  datatype Pair = Pair(key: string, value: Option<string>, sep: Option<char>)

  /** The first pair of a query that is not empty. */
  function FirstPair(q: string): Pair
    requires q != ""
  {
    var k := KeyEnd(q);
    var has := k < |q| && q[k] == '=';
    var e := if has then k + 1 + ValueEnd(q[k + 1..]) else k;
    Pair(q[..k], if has then Some(q[k + 1..e]) else None, if e < |q| then Some(q[e]) else None)
  }

  function Text(p: Pair): string
  {
    p.key + (if p.value.Some? then "=" + p.value.value else "") + if p.sep.Some? then [p.sep.value] else ""
  }

  lemma FirstPairIsPrefix(q: string)
    requires q != ""
    ensures Text(FirstPair(q)) <= q && Text(FirstPair(q)) != ""
  {
    var k := KeyEnd(q);
    if k < |q| && q[k] == '=' {
      var e := k + 1 + ValueEnd(q[k + 1..]);
      assert q[..k] + ("=" + q[k + 1..e]) == q[..e];
    }
  }

  function Parse(q: string): seq<Pair>
    decreases |q|
  {
    if q == "" then []
    else
      FirstPairIsPrefix(q);
      [FirstPair(q)] + Parse(q[|Text(FirstPair(q))|..])
  }

  function Print(ps: seq<Pair>): string
  {
    if ps == [] then "" else Text(ps[0]) + Print(ps[1..])
  }

  /** A pair as the walkers see one. */
  ghost predicate PairOk(p: Pair)
  {
    && (forall c :: c in p.key ==> !Ends(c))
    && (p.value.Some? ==> forall c :: c in p.value.value ==> !IsSep(c))
    && (p.sep.Some? ==> IsSep(p.sep.value))
    && Text(p) != ""
  }

  /** Pairs with a separator behind each but perhaps the last. */
  ghost predicate PairsOk(ps: seq<Pair>)
  {
    forall i :: 0 <= i < |ps| ==> PairOk(ps[i]) && (i + 1 < |ps| ==> ps[i].sep.Some?)
  }

  lemma {:induction false} KeyEndAt(a: string, b: string)
    requires (forall c :: c in a ==> !Ends(c)) && (b == "" || Ends(b[0]))
    ensures KeyEnd(a + b) == |a|
  {
    if a == "" {
      assert a + b == b;
    } else {
      assert (a + b)[1..] == a[1..] + b && (a + b)[0] == a[0] && a[0] in a;
      KeyEndAt(a[1..], b);
    }
  }

  lemma {:induction false} ValueEndAt(a: string, b: string)
    requires (forall c :: c in a ==> !IsSep(c)) && (b == "" || IsSep(b[0]))
    ensures ValueEnd(a + b) == |a|
  {
    if a == "" {
      assert a + b == b;
    } else {
      assert (a + b)[1..] == a[1..] + b && (a + b)[0] == a[0] && a[0] in a;
      ValueEndAt(a[1..], b);
    }
  }

  function SepOf(tail: string): Option<char> { if tail == "" then None else Some(tail[0]) }

  lemma WithValue(key: string, v: string, tail: string)
    requires (forall c :: c in key ==> !Ends(c)) && (forall c :: c in v ==> !IsSep(c)) && (tail == "" || IsSep(tail[0]))
    ensures FirstPair(key + ("=" + (v + tail))) == Pair(key, Some(v), SepOf(tail))
  {
    hide KeyEnd, ValueEnd;
    var q := key + ("=" + (v + tail));
    KeyEndAt(key, "=" + (v + tail));
    var rest := q[|key| + 1..];
    assert rest == v + tail && q[|key|] == '=';
    ValueEndAt(v, tail);
    var e := |key| + 1 + |v|;
    assert q[..|key|] == key && q[|key| + 1..e] == v;
    assert e < |q| ==> q[e] == tail[0];
  }

  lemma WithoutValue(key: string, tail: string)
    requires (forall c :: c in key ==> !Ends(c)) && key + tail != "" && (tail == "" || IsSep(tail[0]))
    ensures FirstPair(key + tail) == Pair(key, None, SepOf(tail))
  {
    hide KeyEnd, ValueEnd;
    KeyEndAt(key, tail);
    assert (key + tail)[..|key|] == key;
  }

  /** The pair at the front of a text is the pair that was printed there. */
  lemma FirstPairAt(p: Pair, rest: string)
    requires PairOk(p) && (p.sep.None? ==> rest == "")
    ensures Text(p) + rest != "" && FirstPair(Text(p) + rest) == p
  {
    hide FirstPair;
    var tail := (if p.sep.Some? then [p.sep.value] else "") + rest;
    if p.value.Some? {
      WithValue(p.key, p.value.value, tail);
      assert Text(p) + rest == p.key + ("=" + (p.value.value + tail));
    } else {
      assert Text(p) + rest == p.key + tail;
      WithoutValue(p.key, tail);
    }
  }

  lemma FirstPairOk(q: string)
    requires q != ""
    ensures PairOk(FirstPair(q)) && (FirstPair(q).sep.None? ==> Text(FirstPair(q)) == q)
  {
    FirstPairIsPrefix(q);
    var k := KeyEnd(q);
    if k < |q| && q[k] == '=' {
      var e := k + 1 + ValueEnd(q[k + 1..]);
      assert q[k + 1..e] == q[k + 1..][..e - (k + 1)];
      assert q[..k] + ("=" + q[k + 1..e]) == q[..e];
    }
  }

  lemma ParseStep(q: string)
    ensures Parse("") == []
    ensures q != "" ==> Text(FirstPair(q)) <= q
    ensures q != "" ==> Parse(q) == [FirstPair(q)] + Parse(q[|Text(FirstPair(q))|..])
  {
    hide FirstPair, Text;
    if q != "" { FirstPairIsPrefix(q); }
  }

  lemma PrintCons(p: Pair, ps: seq<Pair>)
    ensures Print([p] + ps) == Text(p) + Print(ps) && Print([]) == ""
  {
    hide Text;
    assert ([p] + ps)[1..] == ps;
  }

  lemma PairsCons(p: Pair, ps: seq<Pair>)
    requires PairOk(p) && PairsOk(ps) && (p.sep.None? ==> ps == [])
    ensures PairsOk([p] + ps)
  {
    hide PairOk;
    var all := [p] + ps;
    assert forall i :: 0 < i < |all| ==> all[i] == ps[i - 1];
  }

  /** Printing the pairs of a query gives it back, and parsing printed pairs gives them
      back. */
  lemma {:induction false} PrintOfParse(q: string)
    ensures Print(Parse(q)) == q && PairsOk(Parse(q))
    decreases |q|
  {
    hide Parse, Print, FirstPair, Text, PairOk, PairsOk;
    ParseStep(q);
    if q == "" {
      PrintCons(Pair("", None, None), []);
      NoPairs();
    } else {
      var p := FirstPair(q);
      var rest := q[|Text(p)|..];
      FirstPairIsPrefix(q);
      FirstPairOk(q);
      PrintOfParse(rest);
      PrintCons(p, Parse(rest));
      ParseStep("");
      PairsCons(p, Parse(rest));
    }
  }

  lemma NoPairs()
    ensures PairsOk([])
  {
  }

  lemma PairsTail(ps: seq<Pair>)
    requires PairsOk(ps) && ps != []
    ensures PairOk(ps[0]) && PairsOk(ps[1..]) && (ps[0].sep.None? ==> ps[1..] == [])
  {
    hide PairOk;
    assert forall i :: 0 <= i < |ps| - 1 ==> ps[1..][i] == ps[i + 1];
  }

  lemma {:induction false} ParseOfPrint(ps: seq<Pair>)
    requires PairsOk(ps)
    ensures Parse(Print(ps)) == ps
    decreases |ps|
  {
    hide Parse, Print, FirstPair, Text, PairOk, PairsOk;
    PrintCons(Pair("", None, None), []);
    if ps == [] {
      ParseStep("");
    } else {
      var p, rest := ps[0], ps[1..];
      PairsTail(ps);
      ParseOfPrint(rest);
      PrintCons(p, rest);
      assert ps == [p] + rest;
      var q := Text(p) + Print(rest);
      FirstPairAt(p, Print(rest));
      ParseStep(q);
      assert q[|Text(p)|..] == Print(rest);
    }
  }

  // ---- masking --------------------------------------------------------------

  predicate Leaks(p: Pair) { p.value.Some? && Secret(p.key) }

  function Stars(n: nat): string { if n == 0 then "" else Stars(n - 1) + "*" }

  /** lk_url_redact on one pair, and lk_url_redact_inplace. */
  function Masked(p: Pair): Pair { if Leaks(p) then p.(value := Some(MARK)) else p }

  function Starred(p: Pair): Pair { if Leaks(p) then p.(value := Some(Stars(|p.value.value|))) else p }

  function MaskAll(ps: seq<Pair>): (qs: seq<Pair>)
    ensures |qs| == |ps| && forall i :: 0 <= i < |ps| ==> qs[i] == Masked(ps[i])
  {
    if ps == [] then [] else [Masked(ps[0])] + MaskAll(ps[1..])
  }

  function StarAll(ps: seq<Pair>): (qs: seq<Pair>)
    ensures |qs| == |ps| && forall i :: 0 <= i < |ps| ==> qs[i] == Starred(ps[i])
  {
    if ps == [] then [] else [Starred(ps[0])] + StarAll(ps[1..])
  }

  /** Where the path ends. */
  function PathEnd(s: string): (i: nat)
    ensures i <= |s| && (i < |s| ==> s[i] == '?') && '?' !in s[..i]
  {
    if s == "" || s[0] == '?' then 0 else 1 + PathEnd(s[1..])
  }

  /** What follows the path and its question mark. */
  function Query(s: string): string { if PathEnd(s) < |s| then s[PathEnd(s) + 1..] else "" }

  /** The path with its question mark, if there is a query. */
  function Path(s: string): string
  {
    if PathEnd(s) < |s| then s[..PathEnd(s) + 1] else s
  }

  /** The whole target, redacted without a bound. */
  function Redacted(s: string): string { Path(s) + Print(MaskAll(Parse(Query(s)))) }

  function RedactedInPlace(s: string): string { Path(s) + Print(StarAll(Parse(Query(s)))) }

  predicate AnyLeak(ps: seq<Pair>) { exists i :: 0 <= i < |ps| && Leaks(ps[i]) }

  predicate Needed(s: string) { AnyLeak(Parse(Query(s))) }

  lemma PathAndQuery(s: string)
    ensures s == Path(s) + Query(s)
  {
    hide PathEnd;
    var e := PathEnd(s);
    if e < |s| {
      assert s == s[..e + 1] + s[e + 1..];
    } else {
      Nil(s);
    }
  }

  lemma {:induction false} StarsAreStars(n: nat)
    ensures |Stars(n)| == n && forall c :: c in Stars(n) ==> c == '*'
  {
    if n > 0 { StarsAreStars(n - 1); }
  }

  lemma MaskedOk(p: Pair)
    requires PairOk(p)
    ensures PairOk(Masked(p)) && PairOk(Starred(p)) && Masked(p).sep == p.sep && Starred(p).sep == p.sep
    ensures Masked(Masked(p)) == Masked(p) && Masked(Starred(p)) == Masked(p)
  {
    hide Secret;
    if p.value.Some? { StarsAreStars(|p.value.value|); }
  }

  lemma MaskAllOk(ps: seq<Pair>)
    requires PairsOk(ps)
    ensures PairsOk(MaskAll(ps)) && PairsOk(StarAll(ps))
    ensures MaskAll(MaskAll(ps)) == MaskAll(ps) && MaskAll(StarAll(ps)) == MaskAll(ps)
  {
    hide MaskAll, StarAll, Masked, Starred, PairOk;
    forall i | 0 <= i < |ps|
      ensures PairOk(Masked(ps[i])) && PairOk(Starred(ps[i])) && Masked(ps[i]).sep == ps[i].sep &&
              Starred(ps[i]).sep == ps[i].sep
      ensures Masked(Masked(ps[i])) == Masked(ps[i]) && Masked(Starred(ps[i])) == Masked(ps[i])
    {
      MaskedOk(ps[i]);
    }
  }

  lemma {:induction false} PathEndAt(a: string, b: string)
    requires '?' !in a && (b == "" || b[0] == '?')
    ensures PathEnd(a + b) == |a|
  {
    if a == "" {
      assert a + b == b;
    } else {
      assert (a + b)[1..] == a[1..] + b && (a + b)[0] == a[0];
      PathEndAt(a[1..], b);
    }
  }

  lemma OnQuery(path: string, q: string)
    requires '?' !in path
    ensures Path(path + "?" + q) == path + "?" && Query(path + "?" + q) == q
  {
    hide PathEnd;
    var s := path + "?" + q;
    assert s == path + ("?" + q);
    PathEndAt(path, "?" + q);
    assert s[..|path| + 1] == path + "?";
  }

  /** The path of a target does not depend on its query. */
  lemma PathIsKept(s: string, q: string)
    requires PathEnd(s) < |s|
    ensures Path(Path(s) + q) == Path(s) && Query(Path(s) + q) == q
  {
    hide Path, Query, PathEnd;
    PathText(s);
    OnQuery(s[..PathEnd(s)], q);
  }

  lemma PathText(s: string)
    requires PathEnd(s) < |s|
    ensures Path(s) == s[..PathEnd(s)] + "?"
  {
    hide PathEnd;
    TakeOne(s, PathEnd(s));
  }

  lemma TakeOne(s: string, e: nat)
    requires e < |s|
    ensures s[..e + 1] == s[..e] + [s[e]] && (s[e] == '?' ==> [s[e]] == "?")
  {
  }

  lemma Nothing()
    ensures Parse("") == [] && MaskAll([]) == [] && StarAll([]) == [] && Print([]) == ""
  {
  }

  lemma NoQuery(s: string)
    requires PathEnd(s) == |s|
    ensures Redacted(s) == s && RedactedInPlace(s) == s
  {
    hide Path, Query, PathEnd, Parse, Print, MaskAll, StarAll;
    AllPath(s);
    Nothing();
    Nil(s);
  }

  lemma AllPath(s: string)
    requires PathEnd(s) == |s|
    ensures Path(s) == s && Query(s) == ""
  {
    hide PathEnd;
  }

  /** Redacting again changes nothing, and redacting after the in-place form gives what
      redacting at once gives. */
  lemma RedactionAlgebra(s: string)
    ensures Redacted(Redacted(s)) == Redacted(s) && Redacted(RedactedInPlace(s)) == Redacted(s)
  {
    hide Parse, Print, MaskAll, StarAll, Path, Query, PairsOk;
    if PathEnd(s) == |s| {
      NoQuery(s);
    } else {
      var ps := Parse(Query(s));
      PrintOfParse(Query(s));
      MaskAllOk(ps);
      ParseOfPrint(MaskAll(ps));
      ParseOfPrint(StarAll(ps));
      PathIsKept(s, Print(MaskAll(ps)));
      PathIsKept(s, Print(StarAll(ps)));
    }
  }

  lemma {:induction false} PrintInjective(ps: seq<Pair>, qs: seq<Pair>)
    requires PairsOk(ps) && PairsOk(qs) && Print(ps) == Print(qs)
    ensures ps == qs
  {
    ParseOfPrint(ps);
    ParseOfPrint(qs);
  }

  /** A target that needs no redaction is left as it is; and a target is left as it is if
      and only if every secret value in it already is the mark. */
  lemma RedactionIsIdentityIff(s: string)
    ensures !Needed(s) ==> Redacted(s) == s
    ensures Redacted(s) == s <==>
              forall i :: 0 <= i < |Parse(Query(s))| && Leaks(Parse(Query(s))[i]) ==>
                Parse(Query(s))[i].value == Some(MARK)
  {
    hide Parse, Print, PairsOk, Secret, Path, Query, MaskAll;
    var ps := Parse(Query(s));
    PrintOfParse(Query(s));
    MaskAllOk(ps);
    var out := Print(MaskAll(ps));
    PathAndQuery(s);
    assert Redacted(s) == Path(s) + out && s == Path(s) + Print(ps);
    SameTail(Path(s), out, Print(ps));
    if MaskAll(ps) == ps {
      assert forall i :: 0 <= i < |ps| ==> Masked(ps[i]) == ps[i];
    } else {
      if out == Print(ps) { PrintInjective(MaskAll(ps), ps); }
      var i :| 0 <= i < |ps| && Masked(ps[i]) != ps[i];
    }
  }

  /** A value that already is the mark needs redaction and is left as it is. */
  lemma MarkedNeedsRedaction()
    ensures Needed("/?token=***") && Redacted("/?token=***") == "/?token=***"
  {
    hide Parse, Redacted, Secret, Path, PairsOk, PathEnd, Print;
    var s, p := "/?token=***", Pair("token", Some(MARK), None);
    MarkedQuery();
    MarkedPair(p);
    ParseOfPrint([p]);
    TokenIsSecret();
    RedactionIsIdentityIff(s);
    assert Leaks(Parse(Query(s))[0]);
  }

  lemma MarkedQuery()
    ensures Query("/?token=***") == "token=***"
  {
    var s := "/?token=***";
    assert PathEnd(s) == 1 by {
      assert s[1..][0] == '?';
    }
  }

  lemma MarkedPair(p: Pair)
    requires p == Pair("token", Some(MARK), None)
    ensures PairsOk([p]) && Print([p]) == "token=***"
  {
    assert Text(p) == "token=***";
  }

  lemma TokenIsSecret()
    ensures Secret("token")
  {
    assert IsAt("token", 0, SECRETS[0]);
    assert Contains("token", SECRETS[0]);
  }

  lemma SameTail(a: string, b: string, c: string)
    ensures a + b == a + c <==> b == c
  {
    if a + b == a + c { assert b == (a + b)[|a|..] == (a + c)[|a|..] == c; }
  }

  /** Queries that differ only inside the values of secret keys. */
  ghost predicate SameButSecrets(ps: seq<Pair>, qs: seq<Pair>)
  {
    |ps| == |qs| && forall i :: 0 <= i < |ps| ==> PairSame(ps[i], qs[i])
  }

  predicate PairSame(p: Pair, q: Pair)
  {
    p.key == q.key && p.sep == q.sep && (if Leaks(p) then q.value.Some? else p.value == q.value)
  }

  /** Targets that differ only inside secret values cannot be told apart afterwards. */
  lemma SecretsAreInvisible(path: string, ps: seq<Pair>, qs: seq<Pair>)
    requires '?' !in path && PairsOk(ps) && PairsOk(qs) && SameButSecrets(ps, qs)
    ensures Redacted(path + "?" + Print(ps)) == Redacted(path + "?" + Print(qs))
  {
    hide Parse, Print, PairsOk, Secret;
    ParseOfPrint(ps);
    ParseOfPrint(qs);
    OnQuery(path, Print(ps));
    OnQuery(path, Print(qs));
    assert forall i :: 0 <= i < |ps| ==> PairSame(ps[i], qs[i]) && Masked(ps[i]) == Masked(qs[i]);
    assert MaskAll(ps) == MaskAll(qs);
  }

  // ---- what redaction does, in words of its own -----------------------------

  /** A lower-case letter or its capital, which is 32 below in ASCII. */
  predicate SameLetter(c: char, l: char) { c == l || ('A' <= c <= 'Z' && c as int + 32 == l as int) }

  predicate MentionedAt(key: string, i: int, word: string)
  {
    0 <= i && i + |word| <= |key| && forall j :: 0 <= j < |word| ==> SameLetter(key[i + j], word[j])
  }

  /** The word is in the key, whatever the case of the key. */
  ghost predicate Mentions(key: string, word: string) { exists i :: MentionedAt(key, i, word) }

  lemma LowerLetter(c: char, l: char)
    requires 'a' <= l <= 'z'
    ensures Lower(c) == l <==> SameLetter(c, l)
  {
  }

  lemma AtIff(key: string, i: int, word: string)
    requires forall j :: 0 <= j < |word| ==> 'a' <= word[j] <= 'z'
    ensures IsAt(key, i, word) <==> MentionedAt(key, i, word)
  {
    if 0 <= i && i + |word| <= |key| {
      forall j | 0 <= j < |word|
        ensures Lower(key[i + j]) == word[j] <==> SameLetter(key[i + j], word[j])
      {
        LowerLetter(key[i + j], word[j]);
      }
      hide Lower, SameLetter;
    }
  }

  lemma ContainsIff(key: string, word: string)
    requires word != "" && forall j :: 0 <= j < |word| ==> 'a' <= word[j] <= 'z'
    ensures Contains(key, word) <==> Mentions(key, word)
  {
    hide IsAt, MentionedAt;
    if Contains(key, word) {
      var i :| 0 <= i <= |key| && IsAt(key, i, word);
      AtIff(key, i, word);
    }
    if Mentions(key, word) {
      var i :| MentionedAt(key, i, word);
      AtIff(key, i, word);
      Within(key, i, word);
    }
  }

  lemma Within(key: string, i: int, word: string)
    requires MentionedAt(key, i, word)
    ensures 0 <= i <= |key|
  {
  }

  /** A key is secret exactly if it mentions one of the eight words. */
  lemma SecretIff(key: string)
    ensures Secret(key) <==>
              || Mentions(key, "token") || Mentions(key, "sig") || Mentions(key, "password")
              || Mentions(key, "passwd") || Mentions(key, "secret") || Mentions(key, "key")
              || Mentions(key, "code") || Mentions(key, "auth")
  {
    forall k | 0 <= k < |SECRETS|
      ensures Contains(key, SECRETS[k]) <==> Mentions(key, SECRETS[k])
    {
      ContainsIff(key, SECRETS[k]);
    }
    hide Contains, Mentions;
    assert SECRETS[0] == "token" && SECRETS[1] == "sig" && SECRETS[2] == "password" && SECRETS[3] == "passwd";
    assert SECRETS[4] == "secret" && SECRETS[5] == "key" && SECRETS[6] == "code" && SECRETS[7] == "auth";
  }

  /** The value of a secret key is replaced, and nothing else: by the three stars, or in place
      by as many stars as it had characters. */
  lemma RedactionOnPairs(path: string, ps: seq<Pair>) returns (masked: seq<Pair>, starred: seq<Pair>)
    requires '?' !in path && PairsOk(ps)
    ensures Redacted(path + "?" + Print(ps)) == path + "?" + Print(masked) && |masked| == |ps|
    ensures RedactedInPlace(path + "?" + Print(ps)) == path + "?" + Print(starred) && |starred| == |ps|
    ensures forall i :: 0 <= i < |ps| ==>
              masked[i] == if ps[i].value.Some? && Secret(ps[i].key) then ps[i].(value := Some("***")) else ps[i]
    ensures forall i :: 0 <= i < |ps| ==>
              && starred[i].key == ps[i].key && starred[i].sep == ps[i].sep
              && if ps[i].value.Some? && Secret(ps[i].key) then
                   starred[i].value.Some? && |starred[i].value.value| == |ps[i].value.value| &&
                   forall c :: c in starred[i].value.value ==> c == '*'
                 else starred[i] == ps[i]
  {
    hide Parse, Print, PairsOk, Secret, Path, Query, Stars;
    ParseOfPrint(ps);
    OnQuery(path, Print(ps));
    masked, starred := MaskAll(ps), StarAll(ps);
    forall i | 0 <= i < |ps| && ps[i].value.Some?
      ensures var v := ps[i].value.value; |Stars(|v|)| == |v| && forall c :: c in Stars(|v|) ==> c == '*'
    {
      StarsAreStars(|ps[i].value.value|);
    }
  }

  // ---- the walkers ----------------------------------------------------------

  /** span_contains_ci. */
  method SpanContains(s: string, needle: string) returns (b: bool)
    ensures b == Contains(s, needle)
  {
    if needle == "" || |needle| > |s| { return false; }
    var i := 0;
    while i + |needle| <= |s|
      invariant 0 <= i <= |s| - |needle| + 1 && forall k :: 0 <= k < i ==> !IsAt(s, k, needle)
    {
      var j := 0;
      while j < |needle| && Lower(s[i + j]) == needle[j]
        invariant 0 <= j <= |needle| && forall k :: 0 <= k < j ==> Lower(s[i + k]) == needle[k]
      {
        j := j + 1;
      }
      if j == |needle| {
        assert IsAt(s, i, needle);
        return true;
      }
      i := i + 1;
    }
    return false;
  }

  /** key_is_secret. */
  method KeyIsSecret(key: string) returns (b: bool)
    ensures b == Secret(key)
  {
    hide Contains;
    var k := 0;
    while k < |SECRETS|
      invariant 0 <= k <= |SECRETS| && forall j :: 0 <= j < k ==> !Contains(key, SECRETS[j])
    {
      var hit := SpanContains(key, SECRETS[k]);
      if hit { return true; }
      k := k + 1;
    }
    return false;
  }

  method ScanPath(s: string) returns (i: nat)
    ensures i == PathEnd(s)
  {
    i := 0;
    while i < |s| && s[i] != '?'
      invariant i <= |s| && PathEnd(s) == i + PathEnd(s[i..])
    {
      i := i + 1;
    }
  }

  method ScanKey(s: string, at: nat) returns (i: nat)
    requires at <= |s|
    ensures i == at + KeyEnd(s[at..])
  {
    i := at;
    while i < |s| && !Ends(s[i])
      invariant at <= i <= |s| && KeyEnd(s[at..]) == i - at + KeyEnd(s[i..])
    {
      assert s[i..][1..] == s[i + 1..];
      i := i + 1;
    }
  }

  method ScanValue(s: string, at: nat) returns (i: nat)
    requires at <= |s|
    ensures i == at + ValueEnd(s[at..])
  {
    i := at;
    while i < |s| && !IsSep(s[i])
      invariant at <= i <= |s| && ValueEnd(s[at..]) == i - at + ValueEnd(s[i..])
    {
      assert s[i..][1..] == s[i + 1..];
      i := i + 1;
    }
  }

  /** The pair at a position of a target, in terms of positions. */
  lemma PairAt(s: string, at: nat, ke: nat, ve: nat)
    requires at < |s| && ke == at + KeyEnd(s[at..])
    requires ve == if ke < |s| && s[ke] == '=' then ke + 1 + ValueEnd(s[ke + 1..]) else ke
    ensures ke <= ve <= |s|
    ensures var has := ke < |s| && s[ke] == '=';
            FirstPair(s[at..]) == Pair(s[at..ke], if has then Some(s[ke + 1..ve]) else None,
                                       if ve < |s| then Some(s[ve]) else None)
    ensures |Text(FirstPair(s[at..]))| == (if ve < |s| then ve + 1 else ve) - at
  {
    hide KeyEnd, ValueEnd;
    var q := s[at..];
    assert q[..ke - at] == s[at..ke];
    if ke < |s| && s[ke] == '=' {
      assert q[ke - at + 1..] == s[ke + 1..];
      assert q[ke - at + 1..ve - at] == s[ke + 1..ve];
    }
  }

  lemma AnyLeakStep(q: string)
    ensures q == "" ==> !AnyLeak(Parse(q))
    ensures q != "" ==> |Text(FirstPair(q))| <= |q|
    ensures q != "" ==> (AnyLeak(Parse(q)) <==> Leaks(FirstPair(q)) || AnyLeak(Parse(q[|Text(FirstPair(q))|..])))
  {
    hide FirstPair, Text, Leaks;
    if q != "" {
      FirstPairIsPrefix(q);
      var p, rest := FirstPair(q), Parse(q[|Text(FirstPair(q))|..]);
      assert Parse(q) == [p] + rest;
      assert AnyLeak([p] + rest) <==> Leaks(p) || AnyLeak(rest) by {
        if AnyLeak(rest) {
          var i :| 0 <= i < |rest| && Leaks(rest[i]);
          assert ([p] + rest)[i + 1] == rest[i];
        }
        if Leaks(p) { assert ([p] + rest)[0] == p; }
      }
    }
  }

  /** One turn of the walk, in terms of positions. */
  lemma LeakAt(s: string, at: nat, ke: nat, ve: nat, next: nat)
    requires at < |s| && ke == at + KeyEnd(s[at..])
    requires ve == if ke < |s| && s[ke] == '=' then ke + 1 + ValueEnd(s[ke + 1..]) else ke
    requires next == if ve < |s| then ve + 1 else ve
    ensures ke <= ve <= next <= |s| && at < next
    ensures AnyLeak(Parse(s[at..])) <==> (ke < |s| && s[ke] == '=' && Secret(s[at..ke])) || AnyLeak(Parse(s[next..]))
  {
    hide Parse, FirstPair, Text, Secret, KeyEnd, ValueEnd, AnyLeak;
    PairAt(s, at, ke, ve);
    FirstPairIsPrefix(s[at..]);
    AnyLeakStep(s[at..]);
    assert s[at..][next - at..] == s[next..];
  }

  /** lk_url_redact_needed. */
  method RedactNeeded(s: string) returns (b: bool)
    ensures b == Needed(s)
  {
    hide Parse, PathEnd, Secret, KeyEnd, ValueEnd, AnyLeak;
    var i := ScanPath(s);
    AnyLeakStep("");
    b := false;
    if i >= |s| { return; }
    i := i + 1;
    while i < |s|
      invariant i <= |s| && Needed(s) == AnyLeak(Parse(s[i..]))
    {
      var at := i;
      var ke := ScanKey(s, at);
      i := ke;
      var secret := false;
      if i < |s| && s[i] == '=' {
        secret := KeyIsSecret(s[at..ke]);
        i := ScanValue(s, i + 1);
      }
      LeakAt(s, at, ke, i, if i < |s| then i + 1 else i);
      if secret { return true; }
      if i < |s| { i := i + 1; }
    }
    assert s[i..] == "";
  }

  function Clip(s: string, n: nat): string { if |s| <= n then s else s[..n] }

  /** The first `w` characters of `out` are those of `full` that fit. */
  ghost predicate Filled(out: array<char>, w: nat, full: string)
    reads out
  {
    w <= out.Length && out[..w] == Clip(full, out.Length)
  }

  /** put: a bounded append. `full` is what an unbounded buffer would hold. */
  method Put(out: array<char>, w: nat, p: string, ghost full: string) returns (v: nat)
    requires Filled(out, w, full)
    modifies out
    ensures Filled(out, v, full + p)
  {
    v := w;
    var i := 0;
    assert full + p[..0] == full;
    while i < |p| && v < out.Length
      invariant 0 <= i <= |p| && Filled(out, v, full + p[..i])
    {
      out[v] := p[i];
      v := v + 1;
      assert full + p[..i + 1] == full + p[..i] + [p[i]];
      i := i + 1;
    }
    assert i == |p| ==> p[..i] == p;
    if i < |p| { assert (full + p)[..out.Length] == (full + p[..i])[..out.Length]; }
  }

  /** The separator at a position, if there is one. */
  function SepText(s: string, ve: nat): string { if ve < |s| then [s[ve]] else "" }

  /** One turn of the walk, for what is written. */
  lemma MaskAt(s: string, at: nat, ke: nat, ve: nat, next: nat)
    requires at < |s| && ke == at + KeyEnd(s[at..])
    requires ve == if ke < |s| && s[ke] == '=' then ke + 1 + ValueEnd(s[ke + 1..]) else ke
    requires next == if ve < |s| then ve + 1 else ve
    ensures ke <= ve <= next <= |s| && at < next
    ensures var has := ke < |s| && s[ke] == '=';
            var sep := SepText(s, ve);
            && Print(MaskAll(Parse(s[at..]))) ==
               s[at..ke] + (if has then "=" + (if Secret(s[at..ke]) then MARK else s[ke + 1..ve]) else "") + sep
               + Print(MaskAll(Parse(s[next..])))
            && Print(StarAll(Parse(s[at..]))) ==
               s[at..ke] + (if has then "=" + (if Secret(s[at..ke]) then Stars(ve - ke - 1) else s[ke + 1..ve])
                            else "") + sep
               + Print(StarAll(Parse(s[next..])))
  {
    hide FirstPair, Secret, KeyEnd, ValueEnd, Parse, Print, MaskAll, StarAll, Text, Masked, Starred, Stars;
    PairAt(s, at, ke, ve);
    FirstPairIsPrefix(s[at..]);
    assert s[at..][next - at..] == s[next..];
    PrintStep(s[at..]);
    MaskText(FirstPair(s[at..]));
  }

  lemma MaskText(p: Pair)
    ensures var sep := if p.sep.Some? then [p.sep.value] else "";
            && Text(Masked(p)) == p.key + (if p.value.Some? then "=" + (if Secret(p.key) then MARK else p.value.value)
                                           else "") + sep
            && Text(Starred(p)) == p.key + (if p.value.Some? then "=" +
                                            (if Secret(p.key) then Stars(|p.value.value|) else p.value.value)
                                              else "") + sep
  {
    hide Secret, Stars;
  }

  lemma PrintStep(q: string)
    requires q != ""
    ensures |Text(FirstPair(q))| <= |q|
    ensures var rest := Parse(q[|Text(FirstPair(q))|..]);
            && Print(MaskAll(Parse(q))) == Text(Masked(FirstPair(q))) + Print(MaskAll(rest))
            && Print(StarAll(Parse(q))) == Text(Starred(FirstPair(q))) + Print(StarAll(rest))
  {
    hide FirstPair, Text, Masked, Starred;
    FirstPairIsPrefix(q);
    var p, rest := FirstPair(q), Parse(q[|Text(FirstPair(q))|..]);
    assert Parse(q) == [p] + rest;
    assert MaskAll([p] + rest) == [Masked(p)] + MaskAll(rest);
    assert StarAll([p] + rest) == [Starred(p)] + StarAll(rest);
    PrintCons(Masked(p), MaskAll(rest));
    PrintCons(Starred(p), StarAll(rest));
  }

  /** lk_url_redact: the output at any capacity is that much of the unbounded output. */
  method RedactInto(s: string, out: array<char>) returns (w: nat)
    modifies out
    ensures Filled(out, w, Redacted(s))
  {
    hide Parse, Print, MaskAll, Secret, KeyEnd, ValueEnd, PathEnd;
    w := 0;
    if out.Length == 0 { return; }
    var i := ScanPath(s);
    ghost var full := s[..i];
    w := Put(out, w, s[..i], "");
    assert "" + s[..i] == full;
    if i >= |s| {
      NoQuery(s);
      return;
    }
    w := Put(out, w, "?", full);
    full := full + "?";
    i := i + 1;
    assert full == Path(s) && s[i..] == Query(s);
    while i < |s|
      invariant i <= |s| && Filled(out, w, full)
      invariant full + Print(MaskAll(Parse(s[i..]))) == Redacted(s)
    {
      w, i, full := RedactPair(s, i, out, w, full);
    }
    assert s[i..] == "";
    Nothing();
    assert full + "" == full;
  }

  /** One turn of lk_url_redact. */
  method RedactPair(s: string, at: nat, out: array<char>, w0: nat, ghost full0: string)
    returns (w: nat, i: nat, ghost full: string)
    requires at < |s| && Filled(out, w0, full0)
    modifies out
    ensures at < i <= |s| && Filled(out, w, full)
    ensures full + Print(MaskAll(Parse(s[i..]))) == full0 + Print(MaskAll(Parse(s[at..])))
  {
    hide Parse, Print, MaskAll, Secret, KeyEnd, ValueEnd, StarAll, Filled;
    var ke := ScanKey(s, at);
    i := ke;
    w := Put(out, w0, s[at..ke], full0);
    ghost var body := "";
    full := full0 + s[at..ke];
    if i < |s| && s[i] == '=' {
      w := Put(out, w, "=", full);
      var vs := i + 1;
      i := ScanValue(s, vs);
      var secret := KeyIsSecret(s[at..ke]);
      var v := if secret then MARK else s[vs..i];
      w := Put(out, w, v, full + "=");
      body := "=" + v;
      assert full + "=" + v == full + body;
    } else {
      assert full + body == full;
    }
    ghost var ve := i;
    ghost var sep := SepText(s, ve);
    if i < |s| {
      w := Put(out, w, [s[i]], full + body);
      i := i + 1;
    } else {
      Nil(full + body);
    }
    MaskAt(s, at, ke, ve, i);
    Assemble(full0, s[at..ke], body, sep, Print(MaskAll(Parse(s[i..]))));
    full := full0 + s[at..ke] + body + sep;
  }

  lemma Nil(a: string)
    ensures a + "" == a
  {
  }

  lemma Assemble(a: string, b: string, c: string, d: string, e: string)
    ensures a + b + c + d + e == a + (b + c + d + e) && a + b + c + "" == a + b + c
  {
  }

  /** lk_url_redact_inplace: one star for every character of a secret value. */
  method RedactInPlace(p: array<char>)
    modifies p
    ensures p[..] == RedactedInPlace(old(p[..]))
  {
    hide Parse, Print, StarAll, MaskAll, Secret, KeyEnd, ValueEnd, PathEnd;
    ghost var s := p[..];
    var i := ScanPath(p[..]);
    if i >= p.Length {
      NoQuery(s);
      return;
    }
    i := i + 1;
    assert p[..i] == Path(s) && s[i..] == Query(s);
    while i < p.Length
      invariant i <= p.Length && p[i..] == s[i..]
      invariant p[..i] + Print(StarAll(Parse(s[i..]))) == RedactedInPlace(s)
    {
      i := StarPair(p, i, s);
    }
    assert s[i..] == "" && p[..i] == p[..];
    Nothing();
    assert p[..] + "" == p[..];
  }

  /** One turn of lk_url_redact_inplace. */
  method StarPair(p: array<char>, at: nat, ghost s: string) returns (i: nat)
    requires at < p.Length == |s| && p[at..] == s[at..]
    modifies p
    ensures at < i <= p.Length && p[i..] == s[i..]
    ensures p[..i] + Print(StarAll(Parse(s[i..]))) == old(p[..at]) + Print(StarAll(Parse(s[at..])))
  {
    hide Parse, Print, MaskAll, Secret, KeyEnd, ValueEnd, StarAll, Stars;
    var now := p[..];
    assert now[at..] == s[at..];
    var ke := ScanKey(now, at);
    i := ke;
    SameFrom(now, s, at, ke);
    if i < p.Length && p[i] == '=' {
      var secret := KeyIsSecret(now[at..ke]);
      i := ScanValue(now, ke + 1);
      if secret { Overwrite(p, ke + 1, i); }
      SameFrom(s, now, ke + 1, i);
    }
    ghost var ve, after := i, p[..];
    if i < p.Length { i := i + 1; }
    MaskAt(s, at, ke, ve, i);
    StarDone(now, after, s, at, ke, ve, i);
    ghost var has := ke < |s| && s[ke] == '=';
    ghost var body := if has then "=" + (if Secret(s[at..ke]) then Stars(ve - ke - 1) else s[ke + 1..ve]) else "";
    Assemble(now[..at], s[at..ke], body, SepText(s, ve), Print(StarAll(Parse(s[i..]))));
  }

  /** The text behind one turn, from what was written and what was left alone. */
  lemma StarDone(now: string, after: string, s: string, at: nat, ke: nat, ve: nat, i: nat)
    requires |now| == |after| == |s| && at <= ke <= ve <= i <= |s| && now[at..] == s[at..]
    requires i == if ve < |s| then ve + 1 else ve
    requires if ke < |s| && s[ke] == '=' && Secret(s[at..ke])
             then ke < ve && after[..ke + 1] == now[..ke + 1] && after[ke + 1..ve] == Stars(ve - ke - 1) &&
               after[ve..] == now[ve..]
             else after == now && (ke < |s| && s[ke] == '=' ==> ke < ve)
    requires !(ke < |s| && s[ke] == '=') ==> ve == ke
    ensures after[i..] == s[i..]
    ensures var has := ke < |s| && s[ke] == '=';
            after[..i] == now[..at] + s[at..ke] + (if has then "=" +
                                                   (if Secret(s[at..ke]) then Stars(ve - ke - 1) else s[ke + 1..ve])
                                                     else "") + SepText(s, ve)
  {
    hide Secret, Stars;
    SameFrom(now, s, at, ke);
    SameFrom(now, s, at, ve);
    SameFrom(now, s, at, i);
    InFour(now, after, at, ke, ve, i);
    if ke < |s| && s[ke] == '=' {
      SameFrom(now, s, at, ke + 1);
      CutFirst(after, ke, ve);
      assert now[ke + 1..ve] == s[ke + 1..ve] by { SameFrom(now, s, ke + 1, ve); }
    }
    assert now[ve..i] == s[ve..i] by { SameFrom(now, s, ve, i); }
  }

  /** What was not written is as before. */
  lemma InFour(now: string, after: string, at: nat, ke: nat, ve: nat, i: nat)
    requires |now| == |after| && at <= ke <= ve <= i <= |now|
    requires after == now || (ke < ve && after[..ke + 1] == now[..ke + 1] && after[ve..] == now[ve..])
    ensures after[..i] == now[..at] + now[at..ke] + after[ke..ve] + now[ve..i] && after[i..] == now[i..]
    ensures ke < ve ==> after[ke] == now[ke]
  {
    Cut(after, at, ke);
    Cut(after, ke, ve);
    Cut(after, ve, i);
    if after != now {
      SameUpTo(after, now, ke + 1, at, ke);
      SameFrom(after, now, ve, i);
    }
  }

  lemma CutFirst(s: string, lo: nat, hi: nat)
    requires lo < hi <= |s|
    ensures s[lo..hi] == [s[lo]] + s[lo + 1..hi]
  {
  }

  lemma Cut(s: string, lo: nat, hi: nat)
    requires lo <= hi <= |s|
    ensures s[..hi] == s[..lo] + s[lo..hi]
  {
  }

  lemma SameUpTo(a: string, b: string, n: nat, lo: nat, hi: nat)
    requires |a| == |b| && lo <= hi < n <= |a| && a[..n] == b[..n]
    ensures a[..lo] == b[..lo] && a[lo..hi] == b[lo..hi] && a[hi] == b[hi]
  {
    forall k | 0 <= k < n ensures a[k] == b[k] {
      assert a[k] == a[..n][k] == b[..n][k] == b[k];
    }
  }

  lemma SameFrom(a: string, b: string, at: nat, e: nat)
    requires |a| == |b| && at <= e <= |a| && a[at..] == b[at..]
    ensures a[at..e] == b[at..e] && a[e..] == b[e..] && (e < |a| ==> a[e] == b[e])
  {
    forall k | at <= k < |a| ensures a[k] == b[k] {
      assert a[k] == a[at..][k - at] == b[at..][k - at] == b[k];
    }
  }

  /** The inner loop of lk_url_redact_inplace. */
  method Overwrite(p: array<char>, lo: nat, hi: nat)
    requires lo <= hi <= p.Length
    modifies p
    ensures p[..lo] == old(p[..lo]) && p[lo..hi] == Stars(hi - lo) && p[hi..] == old(p[hi..])
  {
    var i := lo;
    while i < hi
      invariant lo <= i <= hi && p[..lo] == old(p[..lo]) && p[hi..] == old(p[hi..])
      invariant p[lo..i] == Stars(i - lo)
    {
      p[i] := '*';
      assert p[lo..i + 1] == p[lo..i] + "*";
      i := i + 1;
    }
  }
}
