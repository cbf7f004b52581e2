/** Remnawave usernames: `build_remnawave_username` of the delivery package. */
module Usernames {
  import opened Wrappers

  const MAX_LENGTH: nat := 36

  datatype UsernameError = NegativeNumber | LimitExceeded

  /** The characters that survive sanitizing. */
  predicate Allowed(c: char) {
    'a' <= c <= 'z' || 'A' <= c <= 'Z' || '0' <= c <= '9' || c == '_' || c == '-'
  }

  function Lower(c: char): char {
    if 'A' <= c <= 'Z' then (c as int + 32) as char else c
  }

  function StripAt(s: string): string {
    if |s| > 0 && s[0] == '@' then StripAt(s[1..]) else s
  }

  function Sanitize(s: string): string {
    if s == "" then ""
    else (if Allowed(Lower(s[0])) then [Lower(s[0])] else "") + Sanitize(s[1..])
  }

  /** The display-name component; `None` is the missing Telegram name. */
  function Base(tgUsername: Option<string>): (b: string)
    ensures |b| > 0
  {
    var raw := match tgUsername case None => "" case Some(s) => s;
    var kept := Sanitize(StripAt(raw));
    if kept == "" then "user" else kept
  }

  /** What becomes of one character of a Telegram name: capitals are lowered, letters, digits, underscores and
      hyphens stay, and everything else is dropped. */
  lemma SanitizedChar(c: char)
    ensures Sanitize([c]) == if 'A' <= c <= 'Z' then [('a' as int + (c as int - 'A' as int)) as char]
                             else if 'a' <= c <= 'z' || '0' <= c <= '9' || c == '_' || c == '-' then [c] else ""
  {
    assert [c][1..] == "";
  }

  /** Character by character; leading at-signs are dropped like any other foreign one. */
  lemma {:induction false} SanitizedParts(s: string, t: string)
    ensures Sanitize(s + t) == Sanitize(s) + Sanitize(t)
    ensures Sanitize(StripAt(s)) == Sanitize(s)
  {
    if s == "" {
      assert s + t == t;
    } else {
      SanitizedParts(s[1..], t);
      assert (s + t)[1..] == s[1..] + t;
    }
  }

  /** The name part of a username: the sanitized Telegram name, or "user" where nothing is left of it. */
  lemma BaseIs(tgUsername: Option<string>)
    ensures var kept := if tgUsername.Some? then Sanitize(tgUsername.value) else "";
            Base(tgUsername) == if |kept| > 0 then kept else "user"
  {
    if tgUsername.Some? {
      SanitizedParts(tgUsername.value, "");
    }
  }

  function Digit(d: nat): char
    requires d < 10
  {
    ('0' as int + d) as char
  }

  /** The decimal numeral of `n`. */
  function Decimal(n: nat): (s: string)
    ensures |s| > 0 && forall i :: 0 <= i < |s| ==> '0' <= s[i] <= '9'
  {
    if n < 10 then [Digit(n)] else Decimal(n / 10) + [Digit(n % 10)]
  }

  /** The number that decimal digits spell. */
  function Value(s: string): int {
    if s == "" then 0 else Value(s[..|s| - 1]) * 10 + (s[|s| - 1] as int - '0' as int)
  }

  /** A numeral spells its number, without a leading zero. */
  lemma {:induction false} DecimalSpells(n: nat)
    ensures Value(Decimal(n)) == n && (n > 0 ==> Decimal(n)[0] != '0')
  {
    if n < 10 {
      assert [Digit(n)][..0] == "";
    } else {
      DecimalSpells(n / 10);
      assert Decimal(n)[..|Decimal(n)| - 1] == Decimal(n / 10);
    }
  }

  function Suffix(userId: nat, ordinal: nat): string {
    "_" + Decimal(userId) + (if ordinal == 0 then "" else "_" + Decimal(ordinal))
  }

  function Take(s: string, n: nat): string {
    if n <= |s| then s[..n] else s
  }

  /** `build_remnawave_username`, with its two `ValueError`s. */
  function Build(tgUsername: Option<string>, userId: int, ordinal: int): Result<string, UsernameError> {
    if userId < 0 || ordinal < 0 then Err(NegativeNumber)
    else
      var suffix := Suffix(userId, ordinal);
      var available := MAX_LENGTH - |suffix|;
      if available < 1 then Err(LimitExceeded)
      else
        var candidate := Take(Base(tgUsername), available) + suffix;
        if |candidate| < 3 then Ok("user" + suffix) else Ok(candidate)
  }

  /** What a name reads like: as much of the name part as 36 characters leave room for, the account's number, and
      from the second subscription on the ordinal. */
  lemma {:induction false} BuildReads(tgUsername: Option<string>, userId: nat, ordinal: nat)
    requires Build(tgUsername, userId, ordinal).Ok?
    ensures var name := Build(tgUsername, userId, ordinal).value;
            var ending := if ordinal == 0 then "_" + Decimal(userId)
                          else "_" + Decimal(userId) + "_" + Decimal(ordinal);
            && |ending| < 36 && |name| <= 36
            && name == (if |Base(tgUsername)| + |ending| <= 36 then Base(tgUsername)
                        else Base(tgUsername)[..36 - |ending|]) + ending
  {
    BuildFits(tgUsername, userId, ordinal);
    SuffixReads(userId, ordinal);
    CutReads(Base(tgUsername), Suffix(userId, ordinal));
  }

  lemma CutReads(base: string, ending: string)
    requires |ending| <= MAX_LENGTH
    ensures Take(base, MAX_LENGTH - |ending|) + ending
            == (if |base| + |ending| <= 36 then base else base[..36 - |ending|]) + ending
  {
    assert |base| + |ending| == 36 ==> base[..36 - |ending|] == base;
  }

  lemma {:induction false} SuffixReads(userId: nat, ordinal: nat)
    ensures Suffix(userId, ordinal) == if ordinal == 0 then "_" + Decimal(userId)
                                       else "_" + Decimal(userId) + "_" + Decimal(ordinal)
  {
    var first := "_" + Decimal(userId);
    assert first + "" == first;
    assert first + ("_" + Decimal(ordinal)) == first + "_" + Decimal(ordinal);
  }

  // ---- lengths ----

  /** Every name fits the panel's limit and the three-character fallback is never taken. */
  lemma BuildFits(tgUsername: Option<string>, userId: int, ordinal: int)
    requires Build(tgUsername, userId, ordinal).Ok?
    ensures |Suffix(userId, ordinal)| < MAX_LENGTH
    ensures 3 <= |Build(tgUsername, userId, ordinal).value| <= MAX_LENGTH
    ensures var suffix := Suffix(userId, ordinal);
            Build(tgUsername, userId, ordinal).value
            == Take(Base(tgUsername), MAX_LENGTH - |suffix|) + suffix
  {
    assert |Decimal(userId)| > 0;
    assert |Suffix(userId, ordinal)| >= 2;
  }

  function Pow10(k: nat): nat { if k == 0 then 1 else 10 * Pow10(k - 1) }

  lemma {:induction false} DecimalLength(n: nat, k: nat)
    requires k > 0 && n < Pow10(k)
    ensures |Decimal(n)| <= k
  {
    assert Pow10(k) == 10 * Pow10(k - 1) && Pow10(0) == 1;
    if n >= 10 {
      DecimalLength(n / 10, k - 1);
    }
  }

  /** A 64-bit account id and a 32-bit ordinal always leave room for the display name. */
  lemma BuildAccepts(tgUsername: Option<string>, userId: nat, ordinal: nat)
    requires userId < 0x8000_0000_0000_0000 && ordinal < 0x8000_0000
    ensures Build(tgUsername, userId, ordinal).Ok?
  {
    assert Pow10(3) == 1000;
    assert Pow10(6) == 1000 * Pow10(3);
    assert Pow10(10) == 10000 * Pow10(6);
    assert Pow10(13) == 1000 * Pow10(10);
    assert Pow10(16) == 1000 * Pow10(13);
    assert Pow10(19) == 1000 * Pow10(16);
    DecimalLength(userId, 19);
    DecimalLength(ordinal, 10);
  }

  // ---- distinctness ----

  lemma {:induction false} DecimalInjective(m: nat, n: nat)
    requires Decimal(m) == Decimal(n)
    ensures m == n
  {
    var s, t := Decimal(m), Decimal(n);
    assert (m < 10 <==> |s| == 1) && (n < 10 <==> |t| == 1) by {
      assert m >= 10 ==> |Decimal(m / 10)| > 0;
      assert n >= 10 ==> |Decimal(n / 10)| > 0;
    }
    if m < 10 {
      assert s[0] == Digit(m) && t[0] == Digit(n);
    } else {
      assert s[|s| - 1] == Digit(m % 10) && t[|t| - 1] == Digit(n % 10);
      assert s[..|s| - 1] == Decimal(m / 10) && t[..|t| - 1] == Decimal(n / 10);
      DecimalInjective(m / 10, n / 10);
    }
  }

  /** The part after the last underscore is determined by the whole name. */
  lemma LastPart(x: string, d: string, y: string, e: string)
    requires x + "_" + d == y + "_" + e
    requires '_' !in d && '_' !in e
    ensures d == e && x == y
  {
    var s, t := x + "_" + d, y + "_" + e;
    assert s[|x|] == '_' && t[|y|] == '_';
    assert forall i :: |x| < i < |s| ==> s[i] == d[i - |x| - 1];
    assert forall i :: |y| < i < |t| ==> t[i] == e[i - |y| - 1];
    assert |x| == |y|;
    assert s[|x| + 1..] == d && t[|y| + 1..] == e;
    assert s[..|x|] == x && t[..|y|] == y;
  }

  /** What `BuildFits` says a name is made of. */
  function Name(base: string, userId: nat, ordinal: nat): string
    requires |Suffix(userId, ordinal)| < MAX_LENGTH
  {
    Take(base, MAX_LENGTH - |Suffix(userId, ordinal)|) + Suffix(userId, ordinal)
  }

  /** The only way two ordinals of one account can collide: the base is so long, and so
      unlucky, that where the longer suffix cuts it, it already spells the account id. */
  predicate SpellsId(base: string, userId: nat) {
    var single := MAX_LENGTH - |Suffix(userId, 0)|;
    var double := MAX_LENGTH - |Suffix(userId, userId)|;
    0 <= double <= single <= |base| && base[double..single] == "_" + Decimal(userId)
  }

  lemma PositiveOrdinalsDiffer(base: string, userId: nat, j: nat, k: nat)
    requires 0 < j < k
    requires |Suffix(userId, j)| < MAX_LENGTH && |Suffix(userId, k)| < MAX_LENGTH
    ensures Name(base, userId, j) != Name(base, userId, k)
  {
    var u := Decimal(userId);
    var tj := Take(base, MAX_LENGTH - |Suffix(userId, j)|);
    var tk := Take(base, MAX_LENGTH - |Suffix(userId, k)|);
    assert Name(base, userId, j) == (tj + "_" + u) + "_" + Decimal(j);
    assert Name(base, userId, k) == (tk + "_" + u) + "_" + Decimal(k);
    if Name(base, userId, j) == Name(base, userId, k) {
      LastPart(tj + "_" + u, Decimal(j), tk + "_" + u, Decimal(k));
      DecimalInjective(j, k);
    }
  }

  /** Cutting `base` later by exactly `|w|` characters appends `w` iff `base` reads `w` there. */
  lemma CutExtends(base: string, double: nat, w: string)
    requires |w| > 0
    ensures Take(base, double + |w|) == Take(base, double) + w
            <==> double + |w| <= |base| && base[double..double + |w|] == w
  {
    var t0, tk := Take(base, double + |w|), Take(base, double);
    if double + |w| <= |base| {
      assert t0 == tk + base[double..double + |w|];
      assert t0[|tk|..] == base[double..double + |w|];
      assert (tk + w)[|tk|..] == w;
    }
  }

  lemma SameTail(a: string, b: string, w: string)
    ensures a + w == b + w <==> a == b
  {
    if a + w == b + w {
      assert a == (a + w)[..|a|] && b == (b + w)[..|b|];
    }
  }

  lemma CutAgain(base: string, double: nat, w: string)
    requires |w| > 0
    ensures Take(base, double + |w|) + w == (Take(base, double) + w) + w
            <==> double + |w| <= |base| && base[double..double + |w|] == w
  {
    SameTail(Take(base, double + |w|), Take(base, double) + w, w);
    CutExtends(base, double, w);
  }

  lemma ZeroAgainstIts(base: string, userId: nat)
    requires |Suffix(userId, 0)| < MAX_LENGTH && |Suffix(userId, userId)| < MAX_LENGTH && userId > 0
    ensures Name(base, userId, 0) == Name(base, userId, userId) <==> SpellsId(base, userId)
  {
    var w := "_" + Decimal(userId);
    var double := MAX_LENGTH - |Suffix(userId, userId)|;
    assert Suffix(userId, 0) == w && Suffix(userId, userId) == w + w;
    CutAgain(base, double, w);
    assert Take(base, double) + (w + w) == (Take(base, double) + w) + w;
  }

  lemma ZeroAgainstOther(base: string, userId: nat, k: nat)
    requires 0 < k && k != userId
    requires |Suffix(userId, 0)| < MAX_LENGTH && |Suffix(userId, k)| < MAX_LENGTH
    ensures Name(base, userId, 0) != Name(base, userId, k)
  {
    var u := Decimal(userId);
    var t0 := Take(base, MAX_LENGTH - |Suffix(userId, 0)|);
    var tk := Take(base, MAX_LENGTH - |Suffix(userId, k)|);
    assert Name(base, userId, 0) == t0 + "_" + u;
    assert Name(base, userId, k) == (tk + "_" + u) + "_" + Decimal(k);
    if Name(base, userId, 0) == Name(base, userId, k) {
      LastPart(t0, u, tk + "_" + u, Decimal(k));
      DecimalInjective(userId, k);
    }
  }

  lemma NamesMeetIff(base: string, userId: nat, j: nat, k: nat)
    requires j < k
    requires |Suffix(userId, j)| < MAX_LENGTH && |Suffix(userId, k)| < MAX_LENGTH
    ensures Name(base, userId, j) == Name(base, userId, k) <==> j == 0 && k == userId && SpellsId(base, userId)
  {
    if j > 0 {
      PositiveOrdinalsDiffer(base, userId, j, k);
    } else if k == userId {
      ZeroAgainstIts(base, userId);
    } else {
      ZeroAgainstOther(base, userId, k);
    }
  }

  /** For one account and one display name, two ordinals share a name exactly when one
      is zero, the other is the (non-zero) account id, and the base spells the id. */
  lemma SameNameIff(tgUsername: Option<string>, userId: nat, j: nat, k: nat)
    requires j < k
    requires Build(tgUsername, userId, j).Ok? && Build(tgUsername, userId, k).Ok?
    ensures Build(tgUsername, userId, j) == Build(tgUsername, userId, k)
            <==> j == 0 && k == userId && SpellsId(Base(tgUsername), userId)
  {
    BuildFits(tgUsername, userId, j);
    BuildFits(tgUsername, userId, k);
    NamesMeetIff(Base(tgUsername), userId, j, k);
  }

  /** The collision is real: account 7 with any allowed 34-character name ending in `_7`. */
  lemma CollisionExample(raw: string)
    requires |raw| == 34 && raw[32..] == "_7"
    requires forall i :: 0 <= i < |raw| ==> Allowed(raw[i]) && Lower(raw[i]) == raw[i]
    ensures Build(Some(raw), 7, 0) == Build(Some(raw), 7, 7)
  {
    SanitizeKeeps(raw);
    assert StripAt(raw) == raw;
    assert Decimal(7) == "7";
    assert Suffix(7, 0) == "_7" && Suffix(7, 7) == "_7_7";
    BuildAccepts(Some(raw), 7, 0);
    BuildAccepts(Some(raw), 7, 7);
    assert SpellsId(raw, 7) by { assert raw[32..34] == raw[32..]; }
    SameNameIff(Some(raw), 7, 0, 7);
  }

  lemma {:induction false} SanitizeKeeps(s: string)
    requires forall i :: 0 <= i < |s| ==> Allowed(s[i]) && Lower(s[i]) == s[i]
    ensures Sanitize(s) == s
  {
    if s != "" {
      SanitizeKeeps(s[1..]);
      assert s == [s[0]] + s[1..];
    }
  }
}
