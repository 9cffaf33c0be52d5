/** Self-serve signup: turning an organisation name into a slug and finding a free one. */
module Signup {
  import opened Prelude

  // ----- _slugify, on the lower-cased name -----

  predicate IsAlnum(c: char) {
    'a' <= c <= 'z' || '0' <= c <= '9'
  }

  /** re.sub(r"[^a-z0-9]+", "-", s): each maximal run of other characters becomes one hyphen. */
  function Collapse(s: string): string {
    if s == "" then ""
    else
      var n := |s| - 1;
      Collapse(s[..n])
      + if IsAlnum(s[n]) then [s[n]] else if n > 0 && !IsAlnum(s[n - 1]) then [] else ['-']
  }

  function StripHyphens(s: string): string {
    StripBy(s, c => c == '-')
  }

  const MAXLEN := 80

  function Slugify(lowered: string): string {
    var slug := StripHyphens(Collapse(Strip(lowered)));
    var cut := slug[..Min(MAXLEN, |slug|)];
    if cut == "" then "org" else cut
  }

  // ----- What a slug is: the name's words joined by hyphens -----

  function ExtendLast(ws: seq<string>, c: char): seq<string>
    requires ws != []
  {
    ws[..|ws| - 1] + [ws[|ws| - 1] + [c]]
  }

  /** The maximal runs of letters and digits, in order. */
  function Words(s: string): seq<string> {
    if s == "" then []
    else
      var n := |s| - 1;
      var ws := Words(s[..n]);
      if !IsAlnum(s[n]) then ws
      else if n > 0 && IsAlnum(s[n - 1]) && ws != [] then ExtendLast(ws, s[n])
      else ws + [[s[n]]]
  }

  function Join(ws: seq<string>): string {
    if ws == [] then ""
    else if |ws| == 1 then ws[0]
    else Join(ws[..|ws| - 1]) + ['-'] + ws[|ws| - 1]
  }

  predicate IsWord(w: string) {
    w != "" && forall i :: 0 <= i < |w| ==> IsAlnum(w[i])
  }

  /** Letters, digits and single inner hyphens. */
  predicate Hyphenated(s: string) {
    && (s != "" ==> IsAlnum(s[0]))
    && (forall i :: 0 <= i < |s| ==> IsAlnum(s[i]) || s[i] == '-')
    && (forall i :: 0 <= i < |s| - 1 ==> IsAlnum(s[i]) || IsAlnum(s[i + 1]))
  }

  lemma {:induction false} WordsAreWords(s: string)
    ensures forall w :: w in Words(s) ==> IsWord(w)
    ensures s != "" && IsAlnum(s[|s| - 1]) ==> Words(s) != []
  {
    if s != "" {
      var n := |s| - 1;
      var ws := Words(s[..n]);
      WordsAreWords(s[..n]);
      if IsAlnum(s[n]) && ws != [] {
        assert IsWord(ws[|ws| - 1]) by {
          assert ws[|ws| - 1] in ws;
        }
        assert IsWord(ws[|ws| - 1] + [s[n]]);
      }
    }
  }

  lemma {:induction false} JoinIsHyphenated(ws: seq<string>)
    requires forall w :: w in ws ==> IsWord(w)
    ensures Hyphenated(Join(ws))
    ensures ws != [] ==> Join(ws) != "" && IsAlnum(Join(ws)[|Join(ws)| - 1])
  {
    if ws != [] {
      var n := |ws| - 1;
      assert ws[n] in ws;
      if n > 0 {
        JoinIsHyphenated(ws[..n]);
      }
    }
  }

  lemma JoinSnoc(ws: seq<string>, w: string)
    ensures Join(ws + [w]) == if ws == [] then w else Join(ws) + ['-'] + w
  {
    if ws != [] {
      assert (ws + [w])[..|ws|] == ws;
    }
  }

  /** Extending the last word extends the joined text. */
  lemma JoinExtends(ws: seq<string>, c: char)
    requires ws != []
    ensures Join(ExtendLast(ws, c)) == Join(ws) + [c]
  {
    var init, w := ws[..|ws| - 1], ws[|ws| - 1];
    assert ws == init + [w];
    JoinSnoc(init, w + [c]);
    JoinSnoc(init, w);
    Associate(Join(init) + ['-'], w, [c]);
  }

  /** The hyphen of the separators in front of the first word. */
  function Lead(s: string): string {
    if s != "" && !IsAlnum(s[0]) then ['-'] else []
  }

  /** The joined words, with the hyphen of the separators behind the last one. */
  function Body(s: string): string {
    Join(Words(s)) + if s != "" && !IsAlnum(s[|s| - 1]) && Words(s) != [] then ['-'] else []
  }

  lemma AddAlnum(front: string, c: char)
    requires IsAlnum(c)
    ensures Body(front + [c]) == Body(front) + [c]
  {
    var ws := Words(front);
    assert (front + [c])[..|front|] == front;
    WordsAreWords(front);
    if front != "" && IsAlnum(front[|front| - 1]) {
      JoinExtends(ws, c);
    } else {
      JoinSnoc(ws, [c]);
    }
  }

  /** One hyphen for a whole run of separators, none in front of the first word. */
  lemma AddSeparator(front: string, c: char)
    requires !IsAlnum(c)
    ensures Body(front + [c]) == Body(front) + if front != "" && IsAlnum(front[|front| - 1]) then ['-'] else []
  {
    assert (front + [c])[..|front|] == front;
    WordsAreWords(front);
  }

  lemma {:induction false} CollapseIsJoin(s: string)
    ensures Collapse(s) == Lead(s) + Body(s)
  {
    if s != "" {
      var n := |s| - 1;
      var front := s[..n];
      CollapseIsJoin(front);
      assert s == front + [s[n]];
      if IsAlnum(s[n]) {
        AddAlnum(front, s[n]);
        Associate(Lead(front), Body(front), [s[n]]);
      } else {
        AddSeparator(front, s[n]);
        Associate(Lead(front), Body(front), ['-']);
      }
    }
  }

  lemma {:induction false} WordsDropFirst(s: string)
    requires s != "" && !IsAlnum(s[0])
    ensures Words(s[1..]) == Words(s)
  {
    if |s| > 1 {
      var n := |s| - 1;
      WordsDropFirst(s[..n]);
      assert s[1..][..n - 1] == s[..n][1..];
    }
  }

  /** Only separators are stripped from the name, so its words stay. */
  lemma {:induction false} WordsOfStripped(s: string)
    ensures Words(Strip(s)) == Words(s)
  {
    if s == "" {
    } else if IsSpace(s[0]) {
      WordsDropFirst(s);
      WordsOfStripped(s[1..]);
    } else if IsSpace(s[|s| - 1]) {
      WordsOfStripped(s[..|s| - 1]);
    }
  }

  lemma StripsToCore(lead: string, core: string, trail: string)
    requires lead in {"", "-"} && trail in {"", "-"} && (core == "" ==> trail == "")
    requires core != "" ==> core[0] != '-' && core[|core| - 1] != '-'
    ensures StripHyphens(lead + (core + trail)) == core
  {
    var s := core + trail;
    assert StripHyphens(s) == core by {
      assert StripHyphens(core) == core;
      if trail == "-" {
        assert s[0] == core[0] && s[|s| - 1] == '-' && s[..|s| - 1] == core;
      } else {
        assert s == core;
      }
    }
    if lead == "-" {
      assert (lead + s)[1..] == s;
    } else {
      assert lead + s == s;
    }
  }

  /** A slug is the name's words joined by hyphens, cut to 80 characters; "org" if there are none. */
  lemma SlugifyJoinsWords(lowered: string)
    ensures var joined := Join(Words(lowered));
      Slugify(lowered) == if Words(lowered) == [] then "org" else joined[..Min(80, |joined|)]
  {
    var s := Strip(lowered);
    WordsOfStripped(lowered);
    WordsAreWords(s);
    JoinIsHyphenated(Words(s));
    CollapseIsJoin(s);
    StripsToCore(Lead(s), Join(Words(s)), Body(s)[|Join(Words(s))|..]);
    assert Body(s) == Join(Words(s)) + Body(s)[|Join(Words(s))|..];
  }

  /** Never empty, at most 80 characters of [a-z0-9-], no leading and no double hyphen. */
  lemma SlugIsHyphenated(lowered: string)
    ensures var slug := Slugify(lowered); 0 < |slug| <= 80 && Hyphenated(slug)
  {
    SlugifyJoinsWords(lowered);
    WordsAreWords(lowered);
    JoinIsHyphenated(Words(lowered));
  }

  /** A slug ends in a hyphen exactly when the cut falls right after one. */
  lemma TrailingHyphenIff(lowered: string)
    ensures var slug := Slugify(lowered); var joined := Join(Words(lowered));
      slug[|slug| - 1] == '-' <==> |joined| > 80 && joined[79] == '-'
  {
    SlugifyJoinsWords(lowered);
    WordsAreWords(lowered);
    JoinIsHyphenated(Words(lowered));
  }

  lemma {:induction false} WordIsItself(w: string)
    requires IsWord(w)
    ensures Words(w) == [w]
  {
    var n := |w| - 1;
    if n > 0 {
      WordIsItself(w[..n]);
      assert w[..n] + [w[n]] == w;
      assert Words(w) == ExtendLast([w[..n]], w[n]);
    } else {
      assert w[..0] == "" && [w[0]] == w;
    }
  }

  /** It happens: a word of 79 characters followed by another one leaves the hyphen at the end. */
  lemma HyphenAtTheCut(w: string, c: char)
    requires IsWord(w) && |w| == 79 && IsAlnum(c)
    ensures Slugify(w + [' ', c]) == w + ['-']
  {
    var s := w + [' ', c];
    WordIsItself(w);
    assert s[..|w| + 1] == w + [' '] && (w + [' '])[..|w|] == w;
    assert Words(s) == [w, [c]];
    JoinSnoc([w], [c]);
    assert [w] + [[c]] == [w, [c]];
    SlugifyJoinsWords(s);
    assert (w + ['-'] + [c])[..MAXLEN] == w + ['-'];
  }

  // ----- The unique-slug loop -----

  /** base, base-1, base-2, ... */
  function Candidate(base: string, k: nat): string {
    if k == 0 then base else base + ['-'] + Decimal(k)
  }

  lemma CandidatesDiffer(base: string, j: nat, k: nat)
    requires j < k
    ensures Candidate(base, j) != Candidate(base, k)
  {
    if j > 0 && Candidate(base, j) == Candidate(base, k) {
      var n := |base| + 1;
      assert Decimal(j) == Candidate(base, j)[n..] && Decimal(k) == Candidate(base, k)[n..];
      DecimalInjective(j, k);
    }
  }

  ghost predicate AllTaken(base: string, k: nat, taken: set<string>) {
    forall j: nat :: j < k ==> Candidate(base, j) in taken
  }

  /** k distinct candidates are all taken only if at least k slugs are. */
  lemma {:induction false} Pigeonhole(base: string, k: nat, taken: set<string>)
    requires AllTaken(base, k, taken)
    ensures k <= |taken|
  {
    if k > 0 {
      var last := Candidate(base, k - 1);
      forall j: nat | j < k - 1 ensures Candidate(base, j) in taken - {last} {
        CandidatesDiffer(base, j, k - 1);
      }
      Pigeonhole(base, k - 1, taken - {last});
    }
  }

  /** The loop in signup: it probes at most |taken| + 1 slugs and returns the first free one. */
  method UniqueSlug(base: string, taken: set<string>) returns (slug: string)
    ensures slug !in taken
    ensures exists k: nat :: k <= |taken| && slug == Candidate(base, k) && AllTaken(base, k, taken)
  {
    slug := base;
    var suffix := 1;
    while slug in taken
      invariant suffix >= 1 && slug == Candidate(base, suffix - 1)
      invariant AllTaken(base, suffix - 1, taken)
      decreases |taken| + 1 - suffix
    {
      Pigeonhole(base, suffix, taken);
      slug := base + ['-'] + Decimal(suffix);
      suffix := suffix + 1;
    }
    Pigeonhole(base, suffix - 1, taken);
  }

  datatype Error = EmailTaken

  class Tenants {
    var emails: set<string>
    var slugs: set<string>

    /** Every accepted signup adds one slug that nobody had before. */
    method Signup(email: string, lowered: string) returns (r: Result<string, Error>)
      modifies this
      ensures old(email in emails) ==> r == Err(EmailTaken) && emails == old(emails) && slugs == old(slugs)
      ensures old(email !in emails) ==>
        && r.Ok? && r.value !in old(slugs)
        && slugs == old(slugs) + {r.value} && emails == old(emails) + {email}
        && exists k: nat :: k <= |old(slugs)| && r.value == Candidate(Slugify(lowered), k)
                         && AllTaken(Slugify(lowered), k, old(slugs))
    {
      if email in emails {
        return Err(EmailTaken);
      }
      var slug := UniqueSlug(Slugify(lowered), slugs);
      slugs := slugs + {slug};
      emails := emails + {email};
      r := Ok(slug);
    }
  }
}
