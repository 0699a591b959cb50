/**
 * Line colours: `getRandomColor` writes three channels as `#rrggbb`
 * (Main.js:56-59) and `getFadedColor` reads them back into an `rgba(...)`
 * string (Main.js:169-175).
 */
module Colors {
  import opened Wrappers
  import opened Text

  /** One colour channel, as `Math.floor(Math.random() * 256)` draws it. */
  type Channel = n: nat | n < 256

  datatype Rgb = Rgb(red: Channel, green: Channel, blue: Channel)

  /** `randomChannel` once the channel is drawn: two lower-case hex digits, zero padded. */
  function HexChannel(n: Channel): string {
    PadStart(Digits(n, 16), 2, '0')
  }

  /** The `#rrggbb` string `getRandomColor` returns for the three drawn channels. */
  function ColorText(c: Rgb): string {
    "#" + HexChannel(c.red) + HexChannel(c.green) + HexChannel(c.blue)
  }

  /** How a template literal renders the result of `parseInt`: `NaN` or the integer. */
  function NumberText(v: Option<int>): string {
    match v
    case None => "NaN"
    case Some(i) => IntText(i)
  }

  /**
   * `getFadedColor(color, opacity)`: the channels read from characters 1-2, 3-4
   * and 5-6 of `color`, with the opacity as the template literal renders it.
   */
  function FadedColor(color: string, opacity: string): string {
    var r := ParseInt(Substring(color, 1, 3), 16);
    var g := ParseInt(Substring(color, 3, 5), 16);
    var b := ParseInt(Substring(color, 5, 7), 16);
    "rgba(" + NumberText(r) + ", " + NumberText(g) + ", " + NumberText(b) + ", " + opacity + ")"
  }

  /** A channel below 256 takes at most two hex digits. */
  lemma HexDigitsShort(n: Channel)
    ensures |Digits(n, 16)| <= 2
  {
    if n >= 16 {
      DivFacts(n, 16);
      assert Digits(n, 16) == Digits(n / 16, 16) + [DigitChar(n % 16)];
    }
  }

  /** The encoded channel is two characters, and `parseInt(…, 16)` of them recovers it. */
  lemma HexChannelRoundTrip(n: Channel)
    ensures |HexChannel(n)| == 2
    ensures ParseInt(HexChannel(n), 16) == Some(n)
  {
    var d := Digits(n, 16);
    HexDigitsShort(n);
    PadStartSpec(d, 2, '0');
    DigitsAreDigits(n, 16);
    ValueOfDigits(n, 16);
    if |d| < 2 {
      assert HexChannel(n) == "0" + d;
      ValueLeadingZero(d, 16);
      assert forall i :: 0 <= i < 2 ==> IsDigit(("0" + d)[i], 16);
      ParseIntAllDigits("0" + d, 16);
    } else {
      assert HexChannel(n) == d;
      ParseIntAllDigits(d, 16);
    }
  }

  lemma FieldsOf(a: string, b: string, c: string)
    requires |a| == 2 && |b| == 2 && |c| == 2
    ensures var s := "#" + a + b + c;
      |s| == 7 && s[0] == '#' && s[1..3] == a && s[3..5] == b && s[5..7] == c
  {
  }

  /** The three channel fields of a `#rrggbb` string sit at characters 1-2, 3-4 and 5-6. */
  lemma ColorTextFields(c: Rgb)
    ensures var s := ColorText(c);
      |s| == 7 && s[0] == '#' &&
      Substring(s, 1, 3) == HexChannel(c.red) &&
      Substring(s, 3, 5) == HexChannel(c.green) &&
      Substring(s, 5, 7) == HexChannel(c.blue)
  {
    HexChannelRoundTrip(c.red);
    HexChannelRoundTrip(c.green);
    HexChannelRoundTrip(c.blue);
    FieldsOf(HexChannel(c.red), HexChannel(c.green), HexChannel(c.blue));
  }

  /** Fading a colour that `getRandomColor` produced keeps exactly its three channels. */
  lemma FadedColorKeepsChannels(c: Rgb, opacity: string)
    ensures FadedColor(ColorText(c), opacity)
         == "rgba(" + Decimal(c.red) + ", " + Decimal(c.green) + ", " + Decimal(c.blue) + ", " + opacity + ")"
  {
    ColorTextFields(c);
    ParseIntOfChannel(c.red);
    ParseIntOfChannel(c.green);
    ParseIntOfChannel(c.blue);
  }

  lemma ParseIntOfChannel(n: Channel)
    ensures NumberText(ParseInt(HexChannel(n), 16)) == Decimal(n)
  {
    HexChannelRoundTrip(n);
  }
}
