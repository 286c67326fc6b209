/**
 * context.go: the per-request Context, its key/value store, the `Html`
 * template substitution and the `Redirect` guard. The fasthttp request
 * context is reduced to the response fields these operations write.
 */
module Context {
  import opened Wrappers
  import opened GoStd
  import opened GoSvelt

  // ---------------------------------------------------------------------------
  // Placeholders: the regexes &{(\d+)} and &{(\w+)}
  // ---------------------------------------------------------------------------

  /** Which of the two placeholder regexes is in use: `\d+` or `\w+` keys. */
  predicate InKey(c: char, digits: bool)
  {
    if digits then IsDigit(c) else IsWordChar(c)
  }

  /** The end of the run of key characters starting at `i`. */
  function KeyRun(s: string, i: nat, digits: bool): (j: nat)
    requires i <= |s|
    ensures i <= j <= |s|
    ensures forall k :: i <= k < j ==> InKey(s[k], digits)
    ensures j == |s| || !InKey(s[j], digits)
    decreases |s| - i
  {
    if i < |s| && InKey(s[i], digits) then KeyRun(s, i + 1, digits) else i
  }

  /**
   * A placeholder starting at `p`: "&{", a non-empty key, "}". The result is
   * the index of the closing brace. The key run is greedy and '}' is not a
   * key character, so there is at most one match at `p`.
   */
  function PlaceholderAt(s: string, p: nat, digits: bool): (r: Option<nat>)
    requires p <= |s|
    ensures r.Some? ==> p + 2 < r.value < |s| && s[p] == '&' && s[p + 1] == '{' && s[r.value] == '}'
    ensures r.Some? ==> forall k :: p + 2 <= k < r.value ==> InKey(s[k], digits)
  {
    if p + 2 <= |s| && s[p] == '&' && s[p + 1] == '{' then
      var q := KeyRun(s, p + 2, digits);
      if q > p + 2 && q < |s| && s[q] == '}' then Some(q) else None
    else None
  }

  /** What the replacement callback answers for one key. */
  datatype Repl = Keep | Put(text: string) | Crash

  /** The two substitution modes of Html: positional arguments or a Map. */
  datatype Mode = Positional(args: seq<Value>) | Keyed(m: map<string, Value>)

  predicate IsDigits(mode: Mode) { mode.Positional? }

  /** A key the placeholder regex of this mode can capture. */
  predicate IsKey(key: string, digits: bool)
  {
    forall i :: 0 <= i < |key| ==> InKey(key[i], digits)
  }

  predicate AllStrings(args: seq<Value>)
  {
    forall i :: 0 <= i < |args| ==> args[i].Str?
  }

  /**
   * The callback of ReplaceAllStringFunc. Positional: the key is parsed with
   * strconv.Atoi, and an index in 1..len(args) selects that argument, after
   * every argument has been asserted to be a string (a panic otherwise).
   * Keyed: a present key with a string value is replaced.
   */
  function Replacement(mode: Mode, key: string): (r: Repl)
    requires IsKey(key, IsDigits(mode))
    ensures mode.Keyed? ==> (r.Put? <==> key in mode.m && mode.m[key].Str?)
    ensures mode.Keyed? && r.Put? ==> r.text == mode.m[key].s
    ensures mode.Keyed? ==> !r.Crash?
    ensures mode.Positional? ==> (r.Keep? <==> !(1 <= Atoi(key) <= |mode.args|))
    ensures mode.Positional? && r.Put? ==>
      AllStrings(mode.args) && 1 <= Atoi(key) <= |mode.args| && r.text == mode.args[Atoi(key) - 1].s
    ensures mode.Positional? ==> (r.Crash? <==> 1 <= Atoi(key) <= |mode.args| && !AllStrings(mode.args))
  {
    match mode
    case Positional(args) =>
      var n := Atoi(key);
      if 1 <= n <= |args| then
        if AllStrings(args) then Put(args[n - 1].s) else Crash
      else Keep
    case Keyed(m) =>
      if key in m && m[key].Str? then Put(m[key].s) else Keep
  }

  /**
   * regexp.ReplaceAllStringFunc: the leftmost placeholder is replaced, and
   * the scan resumes after it, so inserted text is never scanned again.
   * None stands for a panic in the callback.
   */
  function ReplaceAll(s: string, mode: Mode): Option<string>
    decreases |s|
  {
    if |s| == 0 then Some("")
    else
      match PlaceholderAt(s, 0, IsDigits(mode))
      case Some(q) => Substituted(Replacement(mode, s[2..q]), s[..q + 1], ReplaceAll(s[q + 1..], mode))
      case None => Prepend([s[0]], ReplaceAll(s[1..], mode))
  }

  /** Text in front of the rest of the output; a panic in the rest stays a panic. */
  function Prepend(front: string, rest: Option<string>): Option<string>
  {
    if rest.Some? then Some(front + rest.value) else None
  }

  /** One placeholder's contribution in front of the rest of the output. */
  function Substituted(r: Repl, placeholder: string, rest: Option<string>): Option<string>
  {
    match r
    case Keep => Prepend(placeholder, rest)
    case Put(text) => Prepend(text, rest)
    case Crash => None
  }

  /** The callback keeps every placeholder. */
  ghost predicate KeepsAll(mode: Mode)
  {
    forall key: string :: IsKey(key, IsDigits(mode)) ==> Replacement(mode, key) == Keep
  }

  /** When every placeholder is kept, the text comes back unchanged. */
  lemma {:induction false} KeptTextUnchanged(s: string, mode: Mode)
    requires KeepsAll(mode)
    ensures ReplaceAll(s, mode) == Some(s)
    decreases |s|
  {
    if |s| > 0 {
      var found := PlaceholderAt(s, 0, IsDigits(mode));
      if found.Some? {
        var q := found.value;
        KeptTextUnchanged(s[q + 1..], mode);
        KeptHead(s, q, mode);
      } else {
        KeptTextUnchanged(s[1..], mode);
        CharKept(s, mode);
      }
    }
  }

  /** A kept placeholder at the front is copied as it stands, in front of an unchanged rest. */
  lemma KeptHead(s: string, q: nat, mode: Mode)
    requires PlaceholderAt(s, 0, IsDigits(mode)) == Some(q)
    requires KeepsAll(mode)
    requires ReplaceAll(s[q + 1..], mode) == Some(s[q + 1..])
    ensures ReplaceAll(s, mode) == Some(s)
  {
    var key := s[2..q];
    assert IsKey(key, IsDigits(mode)) by {
      assert forall k :: 0 <= k < |key| ==> key[k] == s[2 + k];
    }
    assert Replacement(mode, key) == Keep;
    assert s[..q + 1] + s[q + 1..] == s;
  }

  /** A character that starts no placeholder is copied as it stands, in front of an unchanged rest. */
  lemma CharKept(s: string, mode: Mode)
    requires |s| > 0 && PlaceholderAt(s, 0, IsDigits(mode)).None?
    requires ReplaceAll(s[1..], mode) == Some(s[1..])
    ensures ReplaceAll(s, mode) == Some(s)
  {
    assert [s[0]] + s[1..] == s;
  }

  /** Text without '&' holds no placeholder and comes back unchanged, in either mode. */
  lemma {:induction false} NoAmpersandUnchanged(s: string, mode: Mode)
    requires forall k :: 0 <= k < |s| ==> s[k] != '&'
    ensures ReplaceAll(s, mode) == Some(s)
    decreases |s|
  {
    if |s| > 0 {
      assert PlaceholderAt(s, 0, IsDigits(mode)).None?;
      NoAmpersandUnchanged(s[1..], mode);
      CharKept(s, mode);
    }
  }

  /** The text a kept or replaced placeholder leaves in the output. */
  function Answer(r: Repl, key: string): string
    requires !r.Crash?
  {
    if r.Put? then r.text else Placeholder(key)
  }

  /**
   * One left-to-right pass: in a text made of plain text, a placeholder and
   * any tail, the plain text is copied, the placeholder becomes the
   * callback's answer (itself when kept), and the tail is processed on its
   * own. A panic of the callback, here or in the tail, is a panic of the
   * whole call.
   */
  lemma {:induction false} PlaceholderInText(x: string, key: string, t: string, mode: Mode)
    requires forall k :: 0 <= k < |x| ==> x[k] != '&'
    requires |key| > 0 && IsKey(key, IsDigits(mode))
    ensures Replacement(mode, key).Crash? || ReplaceAll(t, mode).None? ==>
      ReplaceAll(x + Placeholder(key) + t, mode) == None
    ensures !Replacement(mode, key).Crash? && ReplaceAll(t, mode).Some? ==>
      ReplaceAll(x + Placeholder(key) + t, mode) ==
        Some(x + Answer(Replacement(mode, key), key) + ReplaceAll(t, mode).value)
    decreases |x|
  {
    var s := x + Placeholder(key) + t;
    var r := Replacement(mode, key);
    if |x| == 0 {
      assert s == Placeholder(key) + t;
      PlaceholderHead(key, t, mode);
      AnswerFirst(ReplaceAll(s, mode), ReplaceAll(t, mode), x, r, key);
    } else {
      var w := x[1..] + Placeholder(key) + t;
      assert s == [x[0]] + w;
      PlainHead(x[0], w, mode);
      PlaceholderInText(x[1..], key, t, mode);
      Consed(ReplaceAll(s, mode), ReplaceAll(w, mode), ReplaceAll(t, mode), x[0], x[1..], x, r, key);
    }
  }

  /** A character other than '&' in front of a text is copied, and the pass goes on after it. */
  lemma PlainHead(c: char, w: string, mode: Mode)
    requires c != '&'
    ensures ReplaceAll([c] + w, mode) == Prepend([c], ReplaceAll(w, mode))
  {
    var s := [c] + w;
    assert s[0] == c && s[1..] == w;
    assert PlaceholderAt(s, 0, IsDigits(mode)).None?;
  }

  /** A placeholder's contribution at the front, stated through its answer. */
  lemma AnswerFirst(whole: Option<string>, rest: Option<string>, x: string, r: Repl, key: string)
    requires x == [] && whole == Substituted(r, Placeholder(key), rest)
    ensures r.Crash? || rest.None? ==> whole == None
    ensures !r.Crash? && rest.Some? ==> whole == Some(x + Answer(r, key) + rest.value)
  {
    if !r.Crash? && rest.Some? {
      assert x + Answer(r, key) == Answer(r, key);
    }
  }

  /** One more copied character in front of a pass whose outcome is known. */
  lemma Consed(whole: Option<string>, inner: Option<string>, rest: Option<string>,
               c: char, x: string, y: string, r: Repl, key: string)
    requires y == [c] + x && whole == Prepend([c], inner)
    requires r.Crash? || rest.None? ==> inner == None
    requires !r.Crash? && rest.Some? ==> inner == Some(x + Answer(r, key) + rest.value)
    ensures r.Crash? || rest.None? ==> whole == None
    ensures !r.Crash? && rest.Some? ==> whole == Some(y + Answer(r, key) + rest.value)
  {
    if !r.Crash? && rest.Some? {
      assert [c] + (x + Answer(r, key) + rest.value) == y + Answer(r, key) + rest.value;
    }
  }

  /** A text that opens with a placeholder: the callback's answer for it, then the pass over the rest. */
  lemma PlaceholderHead(key: string, t: string, mode: Mode)
    requires |key| > 0 && IsKey(key, IsDigits(mode))
    ensures ReplaceAll(Placeholder(key) + t, mode) ==
      Substituted(Replacement(mode, key), Placeholder(key), ReplaceAll(t, mode))
  {
    var s := Placeholder(key) + t;
    var q := |key| + 2;
    PlaceholderFound(s, 0, key, IsDigits(mode));
    assert s[..q + 1] == Placeholder(key) && s[q + 1..] == t;
  }

  /** The text of a placeholder, wherever it stands, is found as one. */
  lemma PlaceholderFound(s: string, n: nat, key: string, digits: bool)
    requires |key| > 0 && IsKey(key, digits)
    requires n + |key| + 3 <= |s| && s[n..n + |key| + 3] == Placeholder(key)
    ensures PlaceholderAt(s, n, digits) == Some(n + |key| + 2)
    ensures s[n + 2..n + |key| + 2] == key
  {
    var q := n + |key| + 2;
    assert s[n] == '&' && s[n + 1] == '{' && s[q] == '}';
    assert forall k :: n + 2 <= k < q ==> s[k] == key[k - n - 2];
    KeyRunOver(s, n + 2, q, digits);
    assert s[n + 2..q] == key;
  }

  /** A Map with no string values keeps every placeholder. */
  lemma NoStringValuesKeepAll(m: map<string, Value>)
    requires forall k :: k in m ==> !m[k].Str?
    ensures KeepsAll(Keyed(m))
  {
  }

  /** The placeholder text for a key. */
  function Placeholder(key: string): string
  {
    "&{" + key + "}"
  }

  /** A template that is exactly one placeholder gives the callback's answer. */
  lemma OnePlaceholder(key: string, mode: Mode)
    requires |key| > 0 && IsKey(key, IsDigits(mode))
    ensures var r := Replacement(mode, key);
      && (r.Keep? ==> ReplaceAll(Placeholder(key), mode) == Some(Placeholder(key)))
      && (r.Put? ==> ReplaceAll(Placeholder(key), mode) == Some(r.text))
      && (r.Crash? ==> ReplaceAll(Placeholder(key), mode) == None)
  {
    PlaceholderHead(key, "", mode);
    assert Placeholder(key) + "" == Placeholder(key);
    assert ReplaceAll("", mode) == Some("");
    match Replacement(mode, key)
    case Keep =>
    case Put(text) =>
      assert text + "" == text;
    case Crash =>
  }

  /** A run of key characters from `i` to a non-key character at `j`. */
  lemma {:induction false} KeyRunOver(s: string, i: nat, j: nat, digits: bool)
    requires i <= j < |s|
    requires forall k :: i <= k < j ==> InKey(s[k], digits)
    requires !InKey(s[j], digits)
    ensures KeyRun(s, i, digits) == j
    decreases j - i
  {
    if i < j {
      KeyRunOver(s, i + 1, j, digits);
    }
  }

  /** `&{n}` with 1 <= n <= len(args) and string arguments becomes args[n-1],
      whatever that text contains: the result is not scanned again. */
  lemma PositionalReplaced(digits: string, args: seq<Value>)
    requires |digits| > 0 && forall i :: 0 <= i < |digits| ==> IsDigit(digits[i])
    requires 1 <= DecimalValue(digits) <= |args| && AllStrings(args)
    requires |args| <= MaxInt
    ensures ReplaceAll(Placeholder(digits), Positional(args)) == Some(args[DecimalValue(digits) - 1].s)
  {
    var n := DecimalValue(digits);
    assert Atoi(digits) == n;
    assert Replacement(Positional(args), digits) == Put(args[n - 1].s);
    OnePlaceholder(digits, Positional(args));
  }

  /** An argument that itself looks like a placeholder is inserted as it is. */
  lemma InsertedTextNotRescanned()
    ensures ReplaceAll(Placeholder("1"), Positional([Str(Placeholder("2")), Str("x")])) == Some(Placeholder("2"))
  {
    assert DecimalValue("1") == 1;
    PositionalReplaced("1", [Str(Placeholder("2")), Str("x")]);
  }

  /** `&{0}` is kept, whatever the arguments are. */
  lemma ZeroKept(args: seq<Value>)
    ensures ReplaceAll(Placeholder("0"), Positional(args)) == Some(Placeholder("0"))
  {
    assert DecimalValue("0") == 0;
    OnePlaceholder("0", Positional(args));
  }

  /** An index past the arguments is kept, also when its digits overflow an
      int (Atoi then saturates at the largest int, still past the arguments). */
  lemma OutOfRangeKept(digits: string, args: seq<Value>)
    requires |digits| > 0 && forall i :: 0 <= i < |digits| ==> IsDigit(digits[i])
    requires DecimalValue(digits) > |args|
    requires |args| < MaxInt
    ensures ReplaceAll(Placeholder(digits), Positional(args)) == Some(Placeholder(digits))
  {
    OnePlaceholder(digits, Positional(args));
  }

  /** In range, one argument that is not a string makes the whole call panic. */
  lemma NonStringPanics(digits: string, args: seq<Value>)
    requires |digits| > 0 && forall i :: 0 <= i < |digits| ==> IsDigit(digits[i])
    requires 1 <= DecimalValue(digits) <= |args| && !AllStrings(args)
    requires |args| <= MaxInt
    ensures ReplaceAll(Placeholder(digits), Positional(args)) == None
  {
    OnePlaceholder(digits, Positional(args));
  }

  /** Indices are read as numbers: a leading zero changes nothing. */
  lemma LeadingZeroSameArgument(digits: string, args: seq<Value>)
    requires forall i :: 0 <= i < |digits| ==> IsDigit(digits[i])
    ensures Replacement(Positional(args), "0" + digits) == Replacement(Positional(args), digits)
  {
    LeadingZeroIgnored(digits);
  }

  /** Map mode: `&{key}` becomes the string stored at the key. */
  lemma KeyedReplaced(key: string, m: map<string, Value>)
    requires IsWord(key)
    ensures key in m && m[key].Str? ==> ReplaceAll(Placeholder(key), Keyed(m)) == Some(m[key].s)
    ensures !(key in m && m[key].Str?) ==> ReplaceAll(Placeholder(key), Keyed(m)) == Some(Placeholder(key))
  {
    OnePlaceholder(key, Keyed(m));
  }

  // ---------------------------------------------------------------------------
  // Html
  // ---------------------------------------------------------------------------

  /** What Html ends in: the rendered body, a returned error, or a panic. */
  datatype HtmlOutcome = Rendered(output: string) | HtmlError(error: string) | HtmlPanic(reason: string)

  const ErrHtmlArgs := "args must be ...string or gosvelt.Map"
  const HtmlContentType := "text/html; charset=UTF-8"

  /**
   * The template text: a name with an extension is read as a file
   * (`readFile` stands for os.Open and ioutil.ReadAll), anything else is the
   * template itself.
   */
  function TemplateText(t: string, readFile: string -> Result<string>): Result<string>
  {
    if Ext(t) != "" then readFile(t) else Ok(t)
  }

  /** The substitution mode the first argument selects: a string or a Map. */
  function ModeOf(args: seq<Value>): Option<Mode>
    requires |args| > 0
  {
    match args[0]
    case Str(_) => Some(Positional(args))
    case MapOf(m) => Some(Keyed(m))
    case _ => None
  }

  /**
   * The body Html renders: the template text with its placeholders
   * substituted in the mode the first argument selects. A panic of the
   * callback is a panic of Html.
   */
  function HtmlBody(t: string, args: seq<Value>, readFile: string -> Result<string>): (r: HtmlOutcome)
    ensures Ext(t) != "" && readFile(t).Err? ==> r == HtmlError(readFile(t).error)
    ensures (Ext(t) == "" || readFile(t).Ok?) && |args| == 0 ==> r.HtmlPanic?
    ensures (Ext(t) == "" || readFile(t).Ok?) && |args| > 0 && !args[0].Str? && !args[0].MapOf?
      ==> r == HtmlError(ErrHtmlArgs)
    ensures r.Rendered? ==> |args| > 0 && (args[0].Str? || args[0].MapOf?)
    ensures r.Rendered? ==>
      && TemplateText(t, readFile).Ok? && ModeOf(args).Some?
      && ReplaceAll(TemplateText(t, readFile).value, ModeOf(args).value) == Some(r.output)
    ensures TemplateText(t, readFile).Ok? && |args| > 0 && ModeOf(args).Some? ==>
      (ReplaceAll(TemplateText(t, readFile).value, ModeOf(args).value).None? <==> r.HtmlPanic?)
  {
    var text := TemplateText(t, readFile);
    if text.Err? then HtmlError(text.error)
    else if |args| == 0 then HtmlPanic("index out of range")
    else
      var mode := ModeOf(args);
      if mode.None? then HtmlError(ErrHtmlArgs)
      else
        match ReplaceAll(text.value, mode.value)
        case Some(out) => Rendered(out)
        case None => HtmlPanic("interface conversion: interface {} is not string")
  }

  /** A plain text with a trailing dot has the extension "." and is opened as a file. */
  lemma TrailingDotReadsFile(args: seq<Value>, readFile: string -> Result<string>)
    requires readFile("Hello.").Err?
    ensures HtmlBody("Hello.", args, readFile) == HtmlError(readFile("Hello.").error)
  {
    assert Ext("Hello.") == ".";
  }

  /** A template without placeholders is written as it is, in either mode. */
  lemma PlainTextRendered(t: string, args: seq<Value>, readFile: string -> Result<string>)
    requires Ext(t) == "" && |args| > 0 && args[0].MapOf?
    requires forall k :: k in args[0].m ==> !args[0].m[k].Str?
    ensures HtmlBody(t, args, readFile) == Rendered(t)
  {
    NoStringValuesKeepAll(args[0].m);
    KeptTextUnchanged(t, Keyed(args[0].m));
  }

  // ---------------------------------------------------------------------------
  // Redirect
  // ---------------------------------------------------------------------------

  const ErrRedirectCode := "redirect: code must be between 300 and 308"

  /** Redirect's guard: an error outside 300..308. */
  function RedirectGuard(code: int): (r: Option<string>)
    ensures r.None? <==> 300 <= code <= 308
    ensures r.Some? ==> r.value == ErrRedirectCode
  {
    if code > 308 || code < 300 then Some(ErrRedirectCode) else None
  }

  // ---------------------------------------------------------------------------
  // Store
  // ---------------------------------------------------------------------------

  /** Set on a store that may be nil: a nil store is created first. */
  function StoreSet(store: Option<map<string, Value>>, key: string, value: string): (r: map<string, Value>)
    ensures key in r && r[key] == Str(value)
    ensures forall k :: k != key ==> (k in r <==> store.Some? && k in store.value)
    ensures forall k :: k != key && k in r ==> r[k] == store.value[k]
  {
    var m := if store.Some? then store.value else map[];
    m[key := Str(value)]
  }

  /** Get: the type assertion `.(string)` panics (None) on a nil store, a
      missing key or a value that is not a string. */
  function StoreGet(store: Option<map<string, Value>>, key: string): (r: Option<string>)
    ensures r.Some? <==> store.Some? && key in store.value && store.value[key].Str?
    ensures r.Some? ==> store.value[key] == Str(r.value)
  {
    if store.Some? && key in store.value && store.value[key].Str? then Some(store.value[key].s) else None
  }

  /** Set then Get of one key returns the value; other keys read as before. */
  lemma SetThenGet(store: Option<map<string, Value>>, key: string, value: string, other: string)
    ensures StoreGet(Some(StoreSet(store, key, value)), key) == Some(value)
    ensures other != key ==> StoreGet(Some(StoreSet(store, key, value)), other) == StoreGet(store, other)
  {
  }

  /** A fresh or reset store answers no key. */
  lemma EmptyStoreAnswersNothing(key: string)
    ensures StoreGet(Some(map[]), key).None?
    ensures StoreGet(None, key).None?
  {
  }

  // ---------------------------------------------------------------------------
  // Context
  // ---------------------------------------------------------------------------

  /** The parts of the fasthttp response that Html and Redirect write. */
  datatype Response = Response(headers: map<string, string>, status: int, body: string, redirect: Option<(string, int)>)

  /** What a handler call ends in: a returned error (or nil), or a panic. */
  datatype Reply = Returned(err: Option<string>) | Panicked(reason: string)

  class Context {
    /** The fasthttp request context; None is a nil pointer. */
    var exchange: Option<Response>
    var store: Option<map<string, Value>>

    /** newContext: no request yet and a nil store. */
    constructor()
      ensures exchange.None? && store.None?
    {
      exchange := None;
      store := None;
    }

    /** update: attach a request and start with an empty store. */
    method Update(r: Response)
      modifies this
      ensures exchange == Some(r) && store == Some(map[])
    {
      exchange := Some(r);
      store := Some(map[]);
    }

    /** reset: detach the request and drop the store. */
    method Reset()
      modifies this
      ensures exchange.None? && store.None?
    {
      exchange := None;
      store := None;
    }

    method Set(key: string, value: string)
      modifies this
      ensures store == Some(StoreSet(old(store), key, value))
      ensures Get(key) == Some(value)
      ensures exchange == old(exchange)
    {
      store := Some(StoreSet(store, key, value));
    }

    function Get(key: string): Option<string>
      reads this
    {
      StoreGet(store, key)
    }

    /** CacheReset: an empty store, whatever was there. */
    method CacheReset()
      modifies this
      ensures store == Some(map[])
      ensures exchange == old(exchange)
    {
      store := Some(map[]);
    }

    /**
     * Html: render the body, then set the content type and the status and
     * append the body. Nothing is written when the body cannot be rendered.
     */
    method Html(code: int, t: string, args: seq<Value>, readFile: string -> Result<string>) returns (reply: Reply)
      modifies this
      ensures store == old(store)
      ensures var o := HtmlBody(t, args, readFile);
        && (o.HtmlError? ==> reply == Returned(Some(o.error)) && exchange == old(exchange))
        && (o.HtmlPanic? ==> reply == Panicked(o.reason) && exchange == old(exchange))
        && (o.Rendered? && old(exchange).None? ==> reply.Panicked? && exchange == old(exchange))
        && (o.Rendered? && old(exchange).Some? ==>
              reply == Returned(None)
              && exchange == Some(old(exchange).value.(
                   headers := old(exchange).value.headers["Content-Type" := HtmlContentType],
                   status := code,
                   body := old(exchange).value.body + o.output)))
    {
      var o := HtmlBody(t, args, readFile);
      match o
      case HtmlError(e) => return Returned(Some(e));
      case HtmlPanic(reason) => return Panicked(reason);
      case Rendered(output) =>
        if exchange.None? {
          return Panicked("nil pointer dereference");
        }
        var res := exchange.value;
        exchange := Some(res.(headers := res.headers["Content-Type" := HtmlContentType], status := code, body := res.body + output));
        return Returned(None);
    }

    /** Redirect: the code guard first, then the redirect on the request. */
    method Redirect(code: int, url: string) returns (reply: Reply)
      modifies this
      ensures store == old(store)
      ensures !(300 <= code <= 308) ==> reply == Returned(Some(ErrRedirectCode)) && exchange == old(exchange)
      ensures 300 <= code <= 308 && old(exchange).None? ==> reply.Panicked? && exchange == old(exchange)
      ensures 300 <= code <= 308 && old(exchange).Some? ==>
        reply == Returned(None) && exchange == Some(old(exchange).value.(redirect := Some((url, code))))
    {
      var guard := RedirectGuard(code);
      if guard.Some? {
        return Returned(guard);
      }
      if exchange.None? {
        return Panicked("nil pointer dereference");
      }
      exchange := Some(exchange.value.(redirect := Some((url, code))));
      return Returned(None);
    }
  }
}
