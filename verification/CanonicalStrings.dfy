/** The strings of the canonical text: they are those of section 3.2.2.2 of RFC 8785, what needs no
    escape stands as it is, and no shorter text reads as the string. */
module CanonicalStrings {
  import opened Wrappers
  import opened Canonical
  import opened CanonicalParser

  // ---- against RFC 8785 --------------------------------------------------------------------

  lemma EscapeIsJcs(c: char)
    ensures EscapeChar(c) == JcsChar(c)
  {
  }

  lemma {:induction false} EscapesAreJcs(s: string)
    ensures EscapeAll(s) == JcsString(s)
  {
    if s != "" {
      EscapeIsJcs(s[0]);
      EscapesAreJcs(s[1..]);
    }
  }

  // Tokens are put together as RFC 8785 puts them together.
  lemma {:induction false} PrintIsJcs(t: Token)
    ensures Print(t) == JcsPrint(t)
    decreases t, 1
  {
    match t {
      case Word(_) =>
      case Quoted(s) => EscapesAreJcs(s);
      case List(items) =>
        if items != [] {
          ItemsAreJcs(items);
          assert "[" + (JcsItems(items) + "]") == "[" + JcsItems(items) + "]";
        }
      case Dict(members) =>
        if members != [] {
          MembersAreJcs(members);
          assert "{" + (JcsMembers(members) + "}") == "{" + JcsMembers(members) + "}";
        }
    }
  }

  lemma {:induction false} ItemsAreJcs(items: seq<Token>)
    requires items != []
    ensures PrintItems(items) == JcsItems(items) + "]"
    decreases items, 0
  {
    PrintIsJcs(items[0]);
    if |items| > 1 {
      ItemsAreJcs(items[1..]);
      Regroup3(JcsPrint(items[0]), ",", JcsItems(items[1..]), "]");
    }
  }

  lemma {:induction false} MembersAreJcs(members: seq<Member>)
    requires members != []
    ensures PrintMembers(members) == JcsMembers(members) + "}"
    decreases members, 0
  {
    EscapesAreJcs(members[0].key);
    PrintIsJcs(members[0].value);
    var head := "\"" + JcsString(members[0].key) + "\":" + JcsPrint(members[0].value);
    assert Quote(members[0].key) + ":" + Print(members[0].value) == head;
    if |members| > 1 {
      MembersAreJcs(members[1..]);
      Regroup3(head, ",", JcsMembers(members[1..]), "}");
    }
  }

  lemma Regroup3(a: string, b: string, c: string, d: string)
    ensures a + (b + (c + d)) == a + (b + c) + d
  {
  }

  // ---- what needs no escape ----------------------------------------------------------------

  predicate NeedsEscape(c: char) {
    c as int < 0x20 || c == '\"' || c == '\\'
  }

  // A string without such characters is printed between quotes as it is, and no other is.
  lemma {:induction false} PlainIff(s: string)
    ensures EscapeAll(s) == s <==> forall i | 0 <= i < |s| :: !NeedsEscape(s[i])
    ensures |EscapeAll(s)| >= |s|
  {
    if s != "" {
      PlainIff(s[1..]);
      assert s == [s[0]] + s[1..];
      if EscapeAll(s) == s {
        assert |EscapeChar(s[0])| == 1;
        assert EscapeAll(s)[1..] == EscapeAll(s[1..]);
      }
    }
  }

  // ---- nothing shorter --------------------------------------------------------------------

  lemma ShortestEscape(s: string)
    requires s != "" && s[0] != '\"' && UnescapeChar(s).Some?
    ensures var (c, rest) := UnescapeChar(s).value; |EscapeChar(c)| + |rest| <= |s|
  {
  }

  // Whatever text the parser reads as a string up to the closing quote is as long as the canonical
  // one or longer.
  lemma {:induction false} QuoteIsShortest(text: string)
    ensures match ParseChars(text)
            case Some((s, rest)) => |EscapeAll(s)| + 1 + |rest| <= |text|
            case None => true
    decreases |text|
  {
    if text != "" && text[0] != '\"' && UnescapeChar(text).Some? {
      var (c, rest) := UnescapeChar(text).value;
      ShortestEscape(text);
      QuoteIsShortest(rest);
      match ParseChars(rest) {
        case Some((cs, after)) => assert ([c] + cs)[1..] == cs;
        case None =>
      }
    }
  }
}
