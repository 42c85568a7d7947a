/**
 * Key extraction: how a capture file name becomes a pairing key, a side and
 * a date token (main.py, `EyeHandler.on_created`, `EyeHandler._process_file`
 * and the first loop of `App.backfill`, which repeat the same derivation).
 *
 * A name such as `P1_20240101_S1_L_a.jpg` loses its extension, is split on
 * '_' into tokens, must have at least five tokens with token 3 equal to "L"
 * or "R", and is keyed by all tokens except token 3, joined with '_'.
 */
module Names {
  import opened Wrappers
  import opened Strings
  import opened Paths

  datatype Side = L | R

  function SideToken(side: Side): string
  {
    if side == L then "L" else "R"
  }

  /** `token in ('R', 'L')`, giving the side it names. */
  function SideOf(token: string): (r: Option<Side>)
    ensures r.Some? <==> token == "L" || token == "R"
    ensures r.Some? ==> SideToken(r.value) == token
  {
    if token == "L" then Some(L) else if token == "R" then Some(R) else None
  }

  /** `name.lower().endswith(('.jpg', '.jpeg', '.png'))` */
  predicate HasImageExtension(name: string)
  {
    var n := Lower(name);
    EndsWith(n, ".jpg") || EndsWith(n, ".jpeg") || EndsWith(n, ".png")
  }

  /** `os.path.splitext(name)[0].split('_')` */
  function Tokens(name: string): seq<string>
  {
    Split(Stem(name), '_')
  }

  /** `'_'.join(tokens[:3] + tokens[4:])` */
  function KeyOf(tokens: seq<string>): string
    requires |tokens| >= 5
  {
    Join(tokens[..3] + tokens[4..], '_')
  }

  /** What a well-formed capture name contributes to pairing. */
  datatype Name = Name(key: string, side: Side, dateToken: string)

  /** The token checks of `_process_file`; `None` is a name the engine ignores. */
  function ParseName(name: string): Option<Name>
  {
    var tokens := Tokens(name);
    if |tokens| < 5 then None
    else
      match SideOf(tokens[3])
      case None => None
      case Some(side) => Some(Name(KeyOf(tokens), side, tokens[1]))
  }

  /** Reinserting `token` at index 3 of a token list. */
  function InsertAt3(pieces: seq<string>, token: string): seq<string>
    requires |pieces| >= 3
  {
    pieces[..3] + [token] + pieces[3..]
  }

  /**
   * The key loses only the side: splitting it on '_' and putting the side
   * token back at index 3 gives the name's tokens, and its second piece is
   * the date token.
   */
  lemma KeyRoundTrip(name: string)
    requires ParseName(name).Some?
    ensures |Split(ParseName(name).value.key, '_')| >= 4
    ensures InsertAt3(Split(ParseName(name).value.key, '_'), SideToken(ParseName(name).value.side)) == Tokens(name)
    ensures Split(ParseName(name).value.key, '_')[1] == ParseName(name).value.dateToken
  {
    var tokens := Tokens(name);
    var rest := tokens[..3] + tokens[4..];
    SplitJoin(rest, '_');
    assert InsertAt3(rest, tokens[3]) == tokens;
  }

  /**
   * Two accepted names share a key exactly when their tokens agree
   * everywhere except, possibly, at the side position.
   */
  lemma SameKeyIff(a: string, b: string)
    requires ParseName(a).Some? && ParseName(b).Some?
    ensures ParseName(a).value.key == ParseName(b).value.key
        <==> Tokens(a)[..3] + Tokens(a)[4..] == Tokens(b)[..3] + Tokens(b)[4..]
  {
    var ta, tb := Tokens(a), Tokens(b);
    if ParseName(a).value.key == ParseName(b).value.key {
      SplitJoin(ta[..3] + ta[4..], '_');
      SplitJoin(tb[..3] + tb[4..], '_');
    }
  }

  /** Names that share a key share their date token, so they share their capture date. */
  lemma SameKeySameDate(a: string, b: string)
    requires ParseName(a).Some? && ParseName(b).Some?
    requires ParseName(a).value.key == ParseName(b).value.key
    ensures ParseName(a).value.dateToken == ParseName(b).value.dateToken
  {
    KeyRoundTrip(a);
    KeyRoundTrip(b);
  }

  /** The extension test ignores case. */
  lemma ImageExtensionIgnoresCase(name: string)
    ensures HasImageExtension(name) == HasImageExtension(Lower(name))
  {
    assert Lower(Lower(name)) == Lower(name);
  }

  /** A name ending in `.jpg`, `.jpeg` or `.png`, in any mix of case, passes the filter. */
  lemma ImageExtensionAccepts(base: string, ext: string)
    requires Lower(ext) == ".jpg" || Lower(ext) == ".jpeg" || Lower(ext) == ".png"
    ensures HasImageExtension(base + ext)
  {
    assert Lower(base + ext) == Lower(base) + Lower(ext);
    var n := Lower(base + ext);
    assert n[|n| - |ext|..] == Lower(ext);
  }

  /** Only a name whose lower-cased tail is `.jpg`, `.jpeg` or `.png` passes the filter. */
  lemma ImageExtensionOnly(name: string)
    requires HasImageExtension(name)
    ensures exists i :: 0 <= i <= |name| && (Lower(name[i..]) == ".jpg" || Lower(name[i..]) == ".jpeg" || Lower(name[i..]) == ".png")
  {
    var n := Lower(name);
    var suffix := if EndsWith(n, ".jpg") then ".jpg" else if EndsWith(n, ".jpeg") then ".jpeg" else ".png";
    var i := |name| - |suffix|;
    assert Lower(name[i..]) == n[i..] == suffix;
  }

  /**
   * Backfill tests a listed name and the live handler the path the name has
   * inside the watched directory; both accept the same names and derive the
   * same key, side and date token.
   */
  lemma LiveAgreesWithBackfill(dir: string, name: string)
    requires name != [] && '/' !in name
    ensures HasImageExtension(PathJoin(dir, name)) == HasImageExtension(name)
    ensures ParseName(Basename(PathJoin(dir, name))) == ParseName(name)
  {
    BasenameOfJoin(dir, name);
    var p := PathJoin(dir, name);
    var prefix := p[..|p| - |name|];
    assert p == prefix + name;
    assert prefix == [] || prefix[|prefix| - 1] == '/';
    SuffixTest(prefix, name, ".jpg");
    SuffixTest(prefix, name, ".jpeg");
    SuffixTest(prefix, name, ".png");
  }

  /** After a '/', the lower-cased whole ends with a '/'-free suffix exactly when the lower-cased tail does. */
  lemma SuffixTest(prefix: string, name: string, suffix: string)
    requires prefix == [] || prefix[|prefix| - 1] == '/'
    requires '/' !in suffix
    ensures EndsWith(Lower(prefix + name), suffix) == EndsWith(Lower(name), suffix)
  {
    var whole := Lower(prefix + name);
    assert Lower(prefix + name) == Lower(prefix) + Lower(name);
    if |name| < |suffix| <= |whole| {
      var j := |suffix| - |name| - 1;
      assert whole[|prefix| - 1] == '/';
      assert whole[|whole| - |suffix|..][j] == '/';
      assert suffix[j] != '/';
    }
  }

  /**
   * Building a name from separator-free tokens and an image extension and
   * parsing it gives back the key of those tokens, their side and token 1.
   */
  lemma ParseBuiltName(tokens: seq<string>, ext: string)
    requires |tokens| >= 5 && SideOf(tokens[3]).Some?
    requires forall i :: 0 <= i < |tokens| ==> '_' !in tokens[i] && '/' !in tokens[i]
    requires ext != [] && IsExtension(ext)
    ensures ParseName(Join(tokens, '_') + ext) == Some(Name(KeyOf(tokens), SideOf(tokens[3]).value, tokens[1]))
  {
    var base := Join(tokens, '_');
    JoinAvoids(tokens, '_', '/');
    JoinHasSeparator(tokens, '_');
    StemDropsExtension(base, ext);
    SplitJoin(tokens, '_');
  }

  /** A character in no piece, other than the separator, is not in the join. */
  lemma {:induction false} JoinAvoids(pieces: seq<string>, sep: char, c: char)
    requires c != sep
    requires forall i :: 0 <= i < |pieces| ==> c !in pieces[i]
    ensures c !in Join(pieces, sep)
    decreases |pieces|
  {
    if |pieces| > 1 {
      JoinAvoids(pieces[1..], sep, c);
    }
  }

  /** Joining two or more pieces puts a separator right after the first piece. */
  lemma JoinHasSeparator(pieces: seq<string>, sep: char)
    requires |pieces| >= 2
    ensures |pieces[0]| < |Join(pieces, sep)| && Join(pieces, sep)[|pieces[0]|] == sep
  {
  }
}
