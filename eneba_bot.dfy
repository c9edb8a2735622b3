/**
 * The manual-offer bot (bot_eneba.py): the affiliate-link rewriter, the
 * administrator gate, the `/oferta <link> | <name> | <price>` command with its
 * chain of early-exit checks, and the start-up configuration check that sets
 * the global administrator id.
 */
module EnebaBot {
  import opened Wrappers
  import opened PyStr

  const AffiliateId: string := "WiillzeraTV"
  const Params: string :=
    "af_id=" + AffiliateId + "&currency=BRL" + "&region=global" + "&utm_source=" + AffiliateId + "&utm_medium=infl"

  /** Appends the affiliate block, after `&` when the URL already holds a `?`
      anywhere (query and fragment are not told apart) and after `?` otherwise. */
  function ToAffiliate(url: string): (r: string)
    ensures url <= r
    ensures |r| == |url| + 1 + |Params|
    ensures r[|url|] == (if '?' in url then '&' else '?')
    ensures r[|url| + 1..] == Params
    ensures '?' in r
  {
    if '?' in url then url + "&" + Params else url + "?" + Params
  }

  /** The contract of ToAffiliate pins its result down: any text with that shape is the result. */
  lemma ToAffiliateDetermined(url: string, r: string)
    requires url <= r && |r| == |url| + 1 + |Params|
    requires r[|url|] == (if '?' in url then '&' else '?')
    requires r[|url| + 1..] == Params
    ensures r == ToAffiliate(url)
  {
    var mark := if '?' in url then "&" else "?";
    Reassembled(url, r, mark + Params);
  }

  /** A text that starts with `u` and continues with `rest` is `u + rest`. */
  lemma Reassembled(u: string, r: string, rest: string)
    requires u <= r && r[|u|..] == rest
    ensures r == u + rest
  {
    assert r == r[..|u|] + r[|u|..];
  }

  /** Rewriting is not idempotent: the second pass sees the `?` it added and appends the block again. */
  lemma ToAffiliateTwice(url: string)
    ensures ToAffiliate(ToAffiliate(url)) == ToAffiliate(url) + "&" + Params
    ensures ToAffiliate(ToAffiliate(url)) != ToAffiliate(url)
  {
  }

  /** A fragment is not split off: with `#` and no `?`, the block lands inside the fragment. */
  lemma ToAffiliateAfterFragment(url: string)
    requires '#' in url && '?' !in url
    ensures ToAffiliate(url)[IndexOf(url, '#') + 1..] == url[IndexOf(url, '#') + 1..] + "?" + Params
  {
  }

  datatype ChatType = Private | Group | Supergroup | Channel
  datatype Update = Update(chatType: ChatType, userId: int)

  datatype Reply =
    | AccessDenied
    | Incomplete
    | BadFormat
    | BadLink
    | BadPrice(priceText: string)
    | Processing(gameName: string)
    | PostedTo(chat: string)
    | PostFailed(affiliateLink: string)

  datatype Button = Button(caption: string, url: string)

  /** The channel post; its Markdown text is built from these fields. */
  datatype OfferPost = OfferPost(gameName: string, priceBrl: real, productUrl: string, affiliateId: string, button: Button)

  datatype Effect = ReplyToUser(reply: Reply) | PostToChannel(chat: string, post: OfferPost)

  const BuyLabel: string := "\U{1F525} COMPRE AQUI E APOIE O CANAL! \U{1F525}"

  /** `check_admin`: whether the command may proceed, and the replies it sends. */
  function CheckAdmin(u: Update, adminId: int): (res: (bool, seq<Effect>))
    ensures res.0 <==> u.chatType == Private && u.userId == adminId
    ensures res.1 == [ReplyToUser(AccessDenied)] <==> u.chatType == Private && u.userId != adminId
    ensures res.1 != [] ==> res.1 == [ReplyToUser(AccessDenied)]
  {
    if u.chatType != Private || u.userId != adminId then
      if u.chatType == Private && u.userId != adminId then (false, [ReplyToUser(AccessDenied)])
      else (false, [])
    else (true, [])
  }

  /** The command text after `/oferta`, split at the first two `|` and stripped. */
  function CommandParts(args: seq<string>): (parts: seq<string>)
    ensures 1 <= |parts| <= 3
    ensures |parts| == 3 <==> Count('|', Join(" ", args)) >= 2
    ensures forall k | 0 <= k < |parts| :: IsStripped(parts[k])
  {
    SplitCount(Join(" ", args), '|', 2);
    StripEach(Split(Join(" ", args), '|', 2))
  }

  /** Only the first two `|` separate fields: every further `|` stays in the price field. */
  lemma CommandPartsFields(args: seq<string>, link: string, name: string, price: string)
    requires Join(" ", args) == link + "|" + name + "|" + price
    requires '|' !in link && '|' !in name
    ensures CommandParts(args) == [Strip(link), Strip(name), Strip(price)]
  {
    var text := Join(" ", args);
    assert text == link + ['|'] + (name + ['|'] + price);
    SplitThreeFields(link, name, price, '|');
    StripThree(Split(text, '|', 2), link, name, price);
  }

  /** The comprehension over three parts strips each of them in place. */
  lemma StripThree(parts: seq<string>, a: string, b: string, c: string)
    requires parts == [a, b, c]
    ensures StripEach(parts) == [Strip(a), Strip(b), Strip(c)]
  {
    var r := StripEach(parts);
    assert r[0] == Strip(a) && r[1] == Strip(b) && r[2] == Strip(c);
  }

  /** The link check: it must mention `eneba.com` and start with `http`. */
  predicate ValidLink(url: string) {
    Contains(url, "eneba.com") && "http" <= url
  }

  /** The price text handed to `float()`: `R$` and `.` removed, `,` made `.`, then stripped. */
  function CleanPrice(s: string): (r: string)
    ensures IsStripped(r)
    ensures ',' !in r
    ensures Count('.', r) == Count(',', s)
    ensures forall c | !IsSpace(c) && c !in "R$.," :: Count(c, r) == Count(c, s)
  {
    var noSymbol := Replace(s, "R$", "");
    var noGroups := Replace(noSymbol, ".", "");
    var decimal := Replace(noGroups, ",", ".");
    ReplaceKeepsCount(s, "R$", "", ',');
    RemoveCharCount(noSymbol, '.');
    ReplaceKeepsCount(noSymbol, ".", "", ',');
    ReplaceCharCount(noGroups, ',', '.');
    StripKeepsCount('.', decimal);
    StripKeepsCount(',', decimal);
    assert Count(',', Strip(decimal)) == 0;
    CleanKeepsOthers(s, noSymbol, noGroups, decimal);
    Strip(decimal)
  }

  /** Every character the clean-up neither removes nor rewrites keeps its count: the digits survive. */
  lemma CleanKeepsOthers(s: string, noSymbol: string, noGroups: string, decimal: string)
    requires noSymbol == Replace(s, "R$", "")
    requires noGroups == Replace(noSymbol, ".", "")
    requires decimal == Replace(noGroups, ",", ".")
    ensures forall c | !IsSpace(c) && c !in "R$.," :: Count(c, Strip(decimal)) == Count(c, s)
  {
    forall c | !IsSpace(c) && c !in "R$.,"
      ensures Count(c, Strip(decimal)) == Count(c, s)
    {
      ReplaceKeepsCount(s, "R$", "", c);
      ReplaceKeepsCount(noSymbol, ".", "", c);
      ReplaceKeepsCount(noGroups, ",", ".", c);
      StripKeepsCount(c, decimal);
    }
  }

  /** Text free of the characters the clean-up touches. */
  predicate Unmarked(s: string) {
    'R' !in s && '$' !in s && '.' !in s && ',' !in s
  }

  /** Removing `R$` leaves text without an `R` alone, and drops a leading `R$`. */
  lemma DropSymbol(t: string)
    requires 'R' !in t
    ensures Replace(t, "R$", "") == t
    ensures Replace("R$" + t, "R$", "") == t
  {
    AbsentFirstChar(t, "R$");
    ReplaceAbsent(t, "R$", "");
    assert "R$" <= "R$" + t && ("R$" + t)[2..] == t;
  }

  /** When the replacements leave stripped text behind whitespace, that text is the cleaned price. */
  lemma CleanedTo(s: string, noGroups: string, pre: string, core: string)
    requires Replace(Replace(s, "R$", ""), ".", "") == noGroups
    requires Replace(noGroups, ",", ".") == pre + core
    requires AllSpace(pre) && IsStripped(core)
    ensures CleanPrice(s) == core
  {
    assert pre + core == pre + core + "";
    StripUnique(pre, core, "");
  }

  /** The decimal comma becomes a point: `a,b` with both sides unmarked becomes `a.b`. */
  lemma DecimalComma(pre: string, a: string, b: string)
    requires ',' !in pre && ',' !in a && ',' !in b
    ensures Replace(pre + a + "," + b, ",", ".") == pre + (a + "." + b)
  {
    var pa := pre + a;
    assert ',' !in pa;
    ReplaceSoleChar(pa, b, ',', ".");
    Regroup(pre, a, ".", b);
  }

  /** Moving the parentheses of a four-piece concatenation. */
  lemma Regroup(w: string, x: string, y: string, z: string)
    ensures w + x + y + z == w + (x + y + z)
  {
    assert |w + x + y + z| == |w + (x + y + z)|;
    forall i | 0 <= i < |w + x + y + z|
      ensures (w + x + y + z)[i] == (w + (x + y + z))[i]
    {
    }
  }

  /** Removing `.` and `R$` leaves unmarked text with a decimal comma alone. */
  lemma NothingToDrop(t: string, a: string, b: string)
    requires Unmarked(a) && Unmarked(b) && t == a + "," + b
    ensures Replace(Replace(t, "R$", ""), ".", "") == t
    ensures Replace(Replace("R$" + t, "R$", ""), ".", "") == t
  {
    DropSymbol(t);
    AbsentFirstChar(t, ".");
    ReplaceAbsent(t, ".", "");
  }

  /**
   * A price with a decimal comma, after optional whitespace and an optional `R$`,
   * cleans to the same digits with a decimal point.
   */
  lemma CleanDecimalPrice(pre: string, a: string, b: string)
    requires AllSpace(pre) && Unmarked(pre) && Unmarked(a) && Unmarked(b)
    requires IsStripped(a + "." + b)
    ensures CleanPrice(pre + a + "," + b) == a + "." + b
    ensures CleanPrice("R$" + (pre + a + "," + b)) == a + "." + b
  {
    var t := pre + a + "," + b;
    assert t == (pre + a) + "," + b;
    NothingToDrop(t, pre + a, b);
    DecimalComma(pre, a, b);
    CleanedTo(t, t, pre, a + "." + b);
    CleanedTo("R$" + t, t, pre, a + "." + b);
  }

  /** Removing `R$` and the one thousands separator joins the groups. */
  lemma GroupDropped(pre: string, g: string, a: string, b: string)
    requires Unmarked(pre) && Unmarked(g) && Unmarked(a) && Unmarked(b)
    ensures Replace(Replace(pre + g + "." + a + "," + b, "R$", ""), ".", "") == pre + g + a + "," + b
    ensures Replace(Replace("R$" + (pre + g + "." + a + "," + b), "R$", ""), ".", "") == pre + g + a + "," + b
  {
    var pg, rest := pre + g, a + "," + b;
    var t, u := pre + g + "." + a + "," + b, pre + g + a + "," + b;
    assert t == pg + ['.'] + rest;
    assert u == pg + [] + rest;
    assert 'R' !in pg && '.' !in pg && 'R' !in rest && '.' !in rest;
    DropSymbol(t);
    ReplaceSoleChar(pg, rest, '.', []);
  }

  /** The same with one thousands separator: `1.149,90` cleans to `1149.90`. */
  lemma CleanGroupedPrice(pre: string, g: string, a: string, b: string)
    requires AllSpace(pre) && Unmarked(pre) && Unmarked(g) && Unmarked(a) && Unmarked(b)
    requires IsStripped(g + a + "." + b)
    ensures CleanPrice(pre + g + "." + a + "," + b) == g + a + "." + b
    ensures CleanPrice("R$" + (pre + g + "." + a + "," + b)) == g + a + "." + b
  {
    var t := pre + g + "." + a + "," + b;
    var u := pre + g + a + "," + b;
    GroupDropped(pre, g, a, b);
    var ga := g + a;
    assert u == pre + ga + "," + b;
    DecimalComma(pre, ga, b);
    CleanedTo(t, u, pre, ga + "." + b);
    CleanedTo("R$" + t, u, pre, ga + "." + b);
  }

  /** A whole price without separators, after optional whitespace and an optional `R$`, is kept as is: `R$ 150` cleans to `150`. */
  lemma CleanIntegerPrice(pre: string, a: string)
    requires AllSpace(pre) && Unmarked(pre) && Unmarked(a) && IsStripped(a)
    ensures CleanPrice(pre + a) == a
    ensures CleanPrice("R$" + (pre + a)) == a
  {
    var t := pre + a;
    DropSymbol(t);
    AbsentFirstChar(t, ".");
    ReplaceAbsent(t, ".", "");
    AbsentFirstChar(t, ",");
    ReplaceAbsent(t, ",", ".");
    CleanedTo(t, t, pre, a);
    CleanedTo("R$" + t, t, pre, a);
  }

  /**
   * A price typed with a decimal point loses the point as if it grouped
   * thousands: `149.90` cleans to `14990`, a hundred times the typed price.
   */
  lemma CleanDotDecimal(a: string, b: string)
    requires Unmarked(a) && Unmarked(b) && IsStripped(a + b)
    ensures CleanPrice(a + "." + b) == a + b
  {
    var s, ab := a + "." + b, a + b;
    assert s == a + ['.'] + b && ab == a + [] + b;
    DropSymbol(s);
    ReplaceSoleChar(a, b, '.', []);
    AbsentFirstChar(ab, ",");
    ReplaceAbsent(ab, ",", ".");
    assert ab == [] + ab;
    CleanedTo(s, ab, [], ab);
  }

  /** The worked example: a Brazilian-formatted price becomes a `float()`-ready text. */
  lemma DropSymbolExample(s: string)
    requires s == "R$ 1.149,90"
    ensures Replace(s, "R$", "") == " 1.149,90"
  {
    var t := " 1.149,90";
    assert s == "R$" + t;
    AbsentFirstChar(t, "R$");
    ReplaceAbsent(t, "R$", "");
  }

  lemma DropGroupingExample(t: string)
    requires t == " 1.149,90"
    ensures Replace(t, ".", "") == " 1149,90"
  {
    var a, b := " 1", "149,90";
    assert t == a + ['.'] + b;
    ReplaceSoleChar(a, b, '.', []);
  }

  lemma DecimalPointExample(u: string)
    requires u == " 1149,90"
    ensures Replace(u, ",", ".") == " 1149.90"
  {
    var c, d := " 1149", "90";
    assert u == c + [','] + d;
    ReplaceSoleChar(c, d, ',', ['.']);
  }

  /** The worked example: a Brazilian-formatted price becomes a `float()`-ready text. */
  lemma CleanPriceExample(s: string)
    requires s == "R$ 1.149,90"
    ensures CleanPrice(s) == "1149.90"
  {
    DropSymbolExample(s);
    var t := Replace(s, "R$", "");
    DropGroupingExample(t);
    var u := Replace(t, ".", "");
    DecimalPointExample(u);
    var v := Replace(u, ",", ".");
    assert v == " " + "1149.90" + "";
    StripUnique(" ", "1149.90", "");
  }

  /** What the argument checks of `/oferta` conclude: a refusal reply, or the offer's fields. */
  datatype Checked = Refused(reply: Reply) | Offer(url: string, name: string, price: real)

  /**
   * The checks after the administrator gate, in order: arguments present, exactly
   * three `|`-separated fields, a valid link, a price that `toFloat` (Python's
   * `float()`) accepts once cleaned.
   */
  function ValidateOffer(args: seq<string>, toFloat: string -> Option<real>): (c: Checked)
    ensures c.Offer? <==> args != [] && |CommandParts(args)| == 3 && ValidLink(CommandParts(args)[0])
                          && toFloat(CleanPrice(CommandParts(args)[2])).Some?
    ensures c.Offer? ==> c.url == CommandParts(args)[0] && c.name == CommandParts(args)[1]
                         && toFloat(CleanPrice(CommandParts(args)[2])) == Some(c.price)
    ensures args == [] ==> c == Refused(Incomplete)
    ensures args != [] && |CommandParts(args)| != 3 ==> c == Refused(BadFormat)
    ensures args != [] && |CommandParts(args)| == 3 && !ValidLink(CommandParts(args)[0])
            ==> c == Refused(BadLink)
    ensures args != [] && |CommandParts(args)| == 3 && ValidLink(CommandParts(args)[0])
            && toFloat(CleanPrice(CommandParts(args)[2])).None?
            ==> c == Refused(BadPrice(CommandParts(args)[2]))
  {
    if args == [] then Refused(Incomplete)
    else
      var parts := CommandParts(args);
      if |parts| != 3 then Refused(BadFormat)
      else
        var url, name, priceText := parts[0], parts[1], parts[2];
        if !Contains(url, "eneba.com") || !("http" <= url) then Refused(BadLink)
        else match toFloat(CleanPrice(priceText))
          case None => Refused(BadPrice(priceText))
          case Some(price) => Offer(url, name, price)
  }

  predicate PostsToChannel(effects: seq<Effect>) {
    exists k | 0 <= k < |effects| :: effects[k].PostToChannel?
  }

  /**
   * `send_oferta_command`: the effects in order. `toFloat` is Python's `float()`
   * on the cleaned price; `sendOk` says whether the channel send returned normally.
   */
  function SendOfferCommand(u: Update, adminId: int, args: seq<string>, toFloat: string -> Option<real>,
                            chat: string, sendOk: bool): (effects: seq<Effect>)
    ensures PostsToChannel(effects) <==> CheckAdmin(u, adminId).0 && ValidateOffer(args, toFloat).Offer?
    ensures effects == [] <==> u.chatType != Private
    ensures !PostsToChannel(effects) ==> |effects| <= 1
    ensures !CheckAdmin(u, adminId).0 ==> effects == CheckAdmin(u, adminId).1
    ensures CheckAdmin(u, adminId).0 && ValidateOffer(args, toFloat).Refused?
            ==> effects == [ReplyToUser(ValidateOffer(args, toFloat).reply)]
  {
    var gate := CheckAdmin(u, adminId);
    if !gate.0 then gate.1
    else match ValidateOffer(args, toFloat)
      case Refused(reply) => [ReplyToUser(reply)]
      case Offer(url, name, price) =>
        var link := ToAffiliate(url);
        var post := OfferPost(name, price, url, AffiliateId, Button(BuyLabel, link));
        var effects := [ReplyToUser(Processing(name)), PostToChannel(chat, post),
                        ReplyToUser(if sendOk then PostedTo(chat) else PostFailed(link))];
        assert effects[1].PostToChannel?;
        effects
  }

  /** An accepted offer: a progress reply, then the post of the validated fields with the
      rewritten link in its button, then success, or the failure reply carrying the link. */
  lemma AcceptedOfferEffects(u: Update, adminId: int, args: seq<string>, toFloat: string -> Option<real>,
                             chat: string, sendOk: bool)
    requires CheckAdmin(u, adminId).0 && ValidateOffer(args, toFloat).Offer?
    ensures var c := ValidateOffer(args, toFloat);
      var link := ToAffiliate(c.url);
      SendOfferCommand(u, adminId, args, toFloat, chat, sendOk)
        == [ReplyToUser(Processing(c.name)),
            PostToChannel(chat, OfferPost(c.name, c.price, c.url, AffiliateId, Button(BuyLabel, link))),
            ReplyToUser(if sendOk then PostedTo(chat) else PostFailed(link))]
  {
  }

  /** A link without `eneba.com` or `http` is refused and nothing reaches the channel. */
  lemma BadLinkRejected(u: Update, adminId: int, args: seq<string>, toFloat: string -> Option<real>,
                        chat: string, sendOk: bool)
    requires u.chatType == Private && u.userId == adminId && args != []
    requires |CommandParts(args)| == 3 && !ValidLink(CommandParts(args)[0])
    ensures SendOfferCommand(u, adminId, args, toFloat, chat, sendOk) == [ReplyToUser(BadLink)]
  {
  }

  /** Outside a private chat the command is ignored silently, even for the administrator. */
  lemma GroupCommandIgnored(u: Update, adminId: int, args: seq<string>, toFloat: string -> Option<real>,
                            chat: string, sendOk: bool)
    requires u.chatType != Private
    ensures SendOfferCommand(u, adminId, args, toFloat, chat, sendOk) == []
  {
  }

  /** The process environment read at start-up. */
  datatype Env = Env(botToken: Option<string>, chatId: Option<string>, adminUserId: Option<string>)

  predicate IsDigits(s: string) {
    forall i | 0 <= i < |s| :: '0' <= s[i] <= '9'
  }

  /** `int(s)` for a string of decimal digits. */
  function DigitsValue(s: string): nat
    requires IsDigits(s)
  {
    if s == [] then 0 else DigitsValue(s[..|s| - 1]) * 10 + (s[|s| - 1] as int - '0' as int)
  }

  /** Decimal digits of `n`, without leading zeros. */
  function NatToDigits(n: nat): (s: string)
    ensures IsDigits(s) && s != []
    ensures |s| > 1 ==> s[0] != '0'
  {
    if n < 10 then [('0' as int + n) as char]
    else NatToDigits(n / 10) + [('0' as int + n % 10) as char]
  }

  lemma {:induction false} DigitsRoundTrip(n: nat)
    ensures DigitsValue(NatToDigits(n)) == n
  {
    if n >= 10 {
      var s := NatToDigits(n);
      assert s[..|s| - 1] == NatToDigits(n / 10);
      DigitsRoundTrip(n / 10);
    }
  }

  /** Leading zeros do not change the administrator id: "007" is user 7. */
  lemma {:induction false} LeadingZeroIgnored(s: string)
    requires IsDigits(s)
    ensures DigitsValue("0" + s) == DigitsValue(s)
    decreases |s|
  {
    if s != [] {
      var t := "0" + s;
      assert t[..|t| - 1] == "0" + s[..|s| - 1];
      LeadingZeroIgnored(s[..|s| - 1]);
    }
  }

  datatype Startup = Aborted | Ready(adminId: nat)

  /** The configuration checks of `main`: all three variables set, the administrator id all digits. */
  function StartupCheck(env: Env): (r: Startup)
    ensures r.Ready? <==> Truthy(env.botToken) && Truthy(env.chatId) && Truthy(env.adminUserId) && IsDigits(env.adminUserId.value)
    ensures r.Ready? ==> r.adminId == DigitsValue(env.adminUserId.value)
  {
    if !Truthy(env.botToken) || !Truthy(env.chatId) || !Truthy(env.adminUserId) then Aborted
    else if IsDigits(env.adminUserId.value) then Ready(DigitsValue(env.adminUserId.value))
    else Aborted
  }

  /** The process globals `application` and `admin_user_id_int`. */
  class Process {
    var polling: bool
    var adminUserId: int

    constructor ()
      ensures !polling && adminUserId == 0
    {
      polling := false;
      adminUserId := 0;
    }

    /** `main`: on a valid configuration, store the administrator id and start polling;
        otherwise leave both globals as they were. */
    method Start(env: Env)
      modifies this
      ensures StartupCheck(env).Ready? ==> polling && adminUserId == StartupCheck(env).adminId
      ensures StartupCheck(env).Aborted? ==> polling == old(polling) && adminUserId == old(adminUserId)
    {
      if !Truthy(env.botToken) || !Truthy(env.chatId) || !Truthy(env.adminUserId) {
        return;
      }
      if IsDigits(env.adminUserId.value) {
        adminUserId := DigitsValue(env.adminUserId.value);
      } else {
        return;
      }
      polling := true;
    }
  }
}
