/** make_qrs.py: one QR code per card, each encoding the page URL with that
    card's id. Only the strings the script formats are modelled; drawing the
    code and saving the image are not. */
module QrCodes {
  import opened Wrappers
  import CardIds

  const BaseUrl := "https://ecalde.github.io/ar-business-cards/"
  const OutDir := "qrs"

  /** The script numbers its cards 1 to 60. */
  const FirstCard: nat := 1
  const CardCount: nat := 60

  /** The strings formatted for one card. */
  datatype QrJob = QrJob(cardId: string, url: string, file: string)

  function DigitChar(d: nat): (c: char)
    requires d < 10
    ensures '0' <= c <= '9'
  {
    ('0' as int + d) as char
  }

  /** The decimal numeral of `n`, without leading zeros. */
  function Decimal(n: nat): (s: string)
    ensures |s| >= 1 && (n < 10 <==> |s| == 1)
    decreases n
  {
    if n < 10 then [DigitChar(n)] else Decimal(n / 10) + [DigitChar(n % 10)]
  }

  /** `s` with zeros added in front until it is `width` long. */
  function ZeroPad(s: string, width: nat): (r: string)
    ensures |r| == if |s| < width then width else |s|
    decreases width - |s|
  {
    if |s| < width then ZeroPad(['0'] + s, width) else s
  }

  /** "card_" and the number written with at least three digits. */
  function FormatCardId(i: nat): (r: string)
    ensures |r| >= 8 && r[..5] == "card_"
  {
    "card_" + ZeroPad(Decimal(i), 3)
  }

  /** The page URL with the card id as its `id` query parameter. */
  function CardUrl(cardId: string): string {
    BaseUrl + "?id=" + cardId
  }

  /** The image file for a card, in the output directory. */
  function QrFile(cardId: string): string {
    OutDir + "/qr_" + cardId + ".png"
  }

  /** Below 1000 the padded numeral is exactly three digits: hundreds, tens
      and units. */
  lemma CardIdDigits(i: nat)
    requires i < 1000
    ensures FormatCardId(i) == "card_" + [DigitChar(i / 100), DigitChar(i / 10 % 10), DigitChar(i % 10)]
  {
    if i < 10 {
      var d := DigitChar(i);
      assert Decimal(i) == [d];
      assert ['0'] + [d] == ['0', d] && ['0'] + ['0', d] == ['0', '0', d];
      assert ZeroPad([d], 3) == ZeroPad(['0', d], 3) == ZeroPad(['0', '0', d], 3) == ['0', '0', d];
    } else if i < 100 {
      assert Decimal(i) == [DigitChar(i / 10), DigitChar(i % 10)];
      assert ZeroPad(Decimal(i), 3) == ['0'] + Decimal(i);
    } else {
      assert Decimal(i / 10) == [DigitChar(i / 100), DigitChar(i / 10 % 10)];
    }
  }

  /** Ids sort as text in the order of their numbers (the point of the zero
      padding), which also makes them pairwise distinct. */
  lemma CardIdsOrdered(i: nat, j: nat)
    requires i < j < 1000
    ensures LexLess(FormatCardId(i), FormatCardId(j))
    ensures FormatCardId(i) != FormatCardId(j)
  {
    CardIdDigits(i);
    CardIdDigits(j);
    var a := [DigitChar(i / 100), DigitChar(i / 10 % 10), DigitChar(i % 10)];
    var b := [DigitChar(j / 100), DigitChar(j / 10 % 10), DigitChar(j % 10)];
    ThreeDigitsOrdered(i, j);
    LexLessPrefix("card_", a, b);
    LexLessIrreflexive(FormatCardId(i), FormatCardId(j));
  }

  lemma ThreeDigitsOrdered(i: nat, j: nat)
    requires i < j < 1000
    ensures LexLess([DigitChar(i / 100), DigitChar(i / 10 % 10), DigitChar(i % 10)],
                    [DigitChar(j / 100), DigitChar(j / 10 % 10), DigitChar(j % 10)])
  {
    var a := [DigitChar(i / 100), DigitChar(i / 10 % 10), DigitChar(i % 10)];
    var b := [DigitChar(j / 100), DigitChar(j / 10 % 10), DigitChar(j % 10)];
    assert a[1..] == [a[1], a[2]] && b[1..] == [b[1], b[2]];
    assert a[1..][1..] == [a[2]] && b[1..][1..] == [b[2]];
    assert i / 100 == i / 10 / 10 && j / 100 == j / 10 / 10;
    if i / 100 == j / 100 {
      assert a[0] == b[0];
      if i / 10 % 10 == j / 10 % 10 {
        assert i / 10 == j / 10;
        assert a[1] == b[1] && a[2] < b[2];
      } else {
        assert i / 10 % 10 < j / 10 % 10;
      }
    }
  }

  /** The URL's `id` query value, everything after `?id=`, is the card id. */
  lemma UrlCarriesId(cardId: string)
    ensures var u := CardUrl(cardId);
      |u| == |BaseUrl| + 4 + |cardId| && u[..|BaseUrl| + 4] == BaseUrl + "?id=" && u[|BaseUrl| + 4..] == cardId
  {
  }

  /** The image file is named after the card id, inside the output
      directory. */
  lemma FileCarriesId(cardId: string)
    ensures var f := QrFile(cardId);
      |f| == |OutDir| + 8 + |cardId| && f[..|OutDir| + 4] == OutDir + "/qr_"
      && f[|OutDir| + 4..|f| - 4] == cardId && f[|f| - 4..] == ".png"
  {
  }

  /** Since the id can be read back from the URL and from the file name,
      different cards never share either. */
  lemma OwnUrlAndFile(a: string, b: string)
    requires a != b
    ensures CardUrl(a) != CardUrl(b) && QrFile(a) != QrFile(b)
  {
    UrlCarriesId(a);
    UrlCarriesId(b);
    FileCarriesId(a);
    FileCarriesId(b);
  }

  /** Python's ordering of strings: by code point, a proper prefix first. */
  predicate LexLess(a: string, b: string)
    decreases |a|
  {
    b != [] && (a == [] || a[0] < b[0] || (a[0] == b[0] && LexLess(a[1..], b[1..])))
  }

  lemma {:induction false} LexLessPrefix(p: string, a: string, b: string)
    requires LexLess(a, b)
    ensures LexLess(p + a, p + b)
    decreases |p|
  {
    if p == [] {
      assert p + a == a && p + b == b;
    } else {
      assert (p + a)[0] == p[0] == (p + b)[0];
      assert (p + a)[1..] == p[1..] + a;
      assert (p + b)[1..] == p[1..] + b;
      LexLessPrefix(p[1..], a, b);
    }
  }

  lemma {:induction false} LexLessIrreflexive(a: string, b: string)
    requires LexLess(a, b)
    ensures a != b
    decreases |a|
  {
    if a != [] && a[0] == b[0] && !(a[0] < b[0]) {
      LexLessIrreflexive(a[1..], b[1..]);
    }
  }

  /** The first and last ids the script formats. */
  lemma FirstAndLastIds()
    ensures FormatCardId(FirstCard) == "card_001"
    ensures FormatCardId(FirstCard + CardCount - 1) == "card_060"
  {
    CardIdDigits(1);
    CardIdDigits(60);
  }

  /** The script's loop over the cards: one job per card, in order. No two
      cards share a URL, and no image file overwrites another. */
  method MakeQrs() returns (jobs: seq<QrJob>)
    ensures |jobs| == CardCount
    ensures forall k :: 0 <= k < |jobs| ==>
      jobs[k].cardId == FormatCardId(FirstCard + k)
      && jobs[k].url == BaseUrl + "?id=" + jobs[k].cardId
      && jobs[k].file == OutDir + "/qr_" + jobs[k].cardId + ".png"
    ensures forall k :: 0 <= k < |jobs| ==> |jobs[k].cardId| == 8
    ensures forall k, l :: 0 <= k < l < |jobs| ==> LexLess(jobs[k].cardId, jobs[l].cardId)
    ensures forall k, l :: 0 <= k < l < |jobs| ==> jobs[k].url != jobs[l].url && jobs[k].file != jobs[l].file
    ensures jobs[0].cardId == "card_001" && jobs[|jobs| - 1].cardId == "card_060"
  {
    jobs := [];
    for i := FirstCard to FirstCard + CardCount
      invariant |jobs| == i - FirstCard
      invariant forall k :: 0 <= k < |jobs| ==>
        jobs[k] == QrJob(FormatCardId(FirstCard + k), CardUrl(FormatCardId(FirstCard + k)),
                         QrFile(FormatCardId(FirstCard + k)))
    {
      var cardId := FormatCardId(i);
      var url := CardUrl(cardId);
      jobs := jobs + [QrJob(cardId, url, QrFile(cardId))];
    }
    forall k | 0 <= k < |jobs| ensures |jobs[k].cardId| == 8 {
      CardIdDigits(FirstCard + k);
    }
    forall k, l | 0 <= k < l < |jobs| ensures LexLess(jobs[k].cardId, jobs[l].cardId) {
      CardIdsOrdered(FirstCard + k, FirstCard + l);
    }
    forall k, l | 0 <= k < l < |jobs| ensures jobs[k].url != jobs[l].url && jobs[k].file != jobs[l].file {
      CardIdsOrdered(FirstCard + k, FirstCard + l);
      OwnUrlAndFile(jobs[k].cardId, jobs[l].cardId);
    }
    FirstAndLastIds();
  }

  /** `getCardIdFromUrl` applied to the `id` parameter the script writes for
      card `i` returns exactly that card's id. */
  lemma IdParameterReadsBack(i: nat)
    requires i < 1000
    ensures CardIds.CardIdFromUrl(Some(FormatCardId(i))) == FormatCardId(i)
  {
    CardIdDigits(i);
    var id := FormatCardId(i);
    assert id[0] == 'c' && '0' <= id[|id| - 1] <= '9';
    assert !CardIds.IsBlank(id) by { assert !CardIds.IsJsWhitespace(id[0]); }
    CardIds.TrimClean(id);
  }

  /** `getCardIdFromUrl`'s default id is the id of the first card the script
      saves a QR code for. */
  lemma DefaultIsFirstCard()
    ensures CardIds.CardIdFromUrl(None) == FormatCardId(FirstCard)
  {
    CardIdDigits(FirstCard);
  }
}
