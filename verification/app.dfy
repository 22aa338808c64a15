/**
 * The request handlers of the service (main.py), without the web framework:
 * `shorten_url` and `redirect_to_url` as methods over the store, returning
 * which page or response the handler would produce.
 */
module App {
  import opened Wrappers
  import opened Utils
  import opened Store

  /** The bound on random candidates tried for one request. */
  const MaxGenerationAttempts: nat := 100

  const InvalidCodeDetail: string := "Invalid short code"
  const UnknownCodeDetail: string := "Short URL not found"

  /** What `shorten_url` renders: the short URL, or the form again with one of its errors. */
  datatype ShortenOutcome =
    | Shortened(shortUrl: string, shortCode: string, originalUrl: string)
    | InvalidUrl(message: string)
    | InvalidCustomCode
    | CustomCodeTaken
    | GenerationExhausted
    | CreateFailed

  /** What `redirect_to_url` answers: a 302 redirect, or a 404 with its detail. */
  datatype RedirectOutcome = Redirect(location: string) | NotFound(detail: string)

  /** The random values of one request: a draw for each of the attempts the loop may make. */
  predicate AreDefaultDraws(draws: seq<CodeDraw>) {
    && |draws| == MaxGenerationAttempts
    && forall i :: 0 <= i < |draws| ==> IsDrawFor(MinCodeLength, MaxCodeLength, draws[i])
  }

  /** `generate_short_code()` with its default bounds. */
  function Candidate(d: CodeDraw): (code: string)
    requires IsDrawFor(MinCodeLength, MaxCodeLength, d)
  {
    GenerateShortCode(MinCodeLength, MaxCodeLength, d)
  }

  /** Every stored code passes the format gate. */
  ghost predicate AllCodesValid(rows: seq<UrlRow>) {
    forall i :: 0 <= i < |rows| ==> IsValidShortCode(rows[i].shortCode)
  }

  /** Position of the first candidate from `from` on whose code `rows` does not hold yet. */
  ghost function FirstFree(rows: seq<UrlRow>, draws: seq<CodeDraw>, from: nat): (k: Option<nat>)
    requires AreDefaultDraws(draws)
    requires from <= |draws|
    ensures k.None? <==> forall i :: from <= i < |draws| ==> Contains(rows, Candidate(draws[i]))
    ensures k.Some? ==>
              && from <= k.value < |draws|
              && !Contains(rows, Candidate(draws[k.value]))
              && forall i :: from <= i < k.value ==> Contains(rows, Candidate(draws[i]))
    decreases |draws| - from
  {
    if from == |draws| then None
    else if !Contains(rows, Candidate(draws[from])) then Some(from)
    else FirstFree(rows, draws, from + 1)
  }

  /**
   * What `shorten_url` answers for a table holding `rows`: the decision
   * procedure of the handler, where the insert of a code found free
   * succeeds, as `ShortenUrl` proves.
   */
  ghost function Decide(rows: seq<UrlRow>, baseDomain: string, url: string, customCode: string,
                        isUrl: string -> bool, draws: seq<CodeDraw>): ShortenOutcome
    requires AreDefaultDraws(draws)
  {
    var check := ValidateUrl(url, isUrl);
    if check.UrlRejected? then InvalidUrl(check.message)
    else if customCode != [] then
      var code := SanitizeCustomCode(customCode);
      if !IsValidShortCode(code) then InvalidCustomCode
      else if Contains(rows, code) then CustomCodeTaken
      else Shortened(FormatShortUrl(baseDomain, code), code, check.url)
    else
      match FirstFree(rows, draws, 0)
      case None => GenerationExhausted
      case Some(k) => Shortened(FormatShortUrl(baseDomain, Candidate(draws[k])), Candidate(draws[k]), check.url)
  }

  /**
   * The retry loop of `shorten_url`: generate a candidate and ask the store
   * whether it is taken, up to MaxGenerationAttempts times, and stop at the
   * first free one. `attempts` counts the candidates tried.
   */
  method PickFreeCode(db: Database, draws: seq<CodeDraw>) returns (code: Option<string>, attempts: nat)
    requires db.Valid()
    requires AreDefaultDraws(draws)
    ensures 1 <= attempts <= MaxGenerationAttempts
    ensures forall i :: 0 <= i < attempts - 1 ==> Contains(db.rows, Candidate(draws[i]))
    ensures code.None? ==> attempts == MaxGenerationAttempts && Contains(db.rows, Candidate(draws[attempts - 1]))
    ensures code.Some? ==> code == Some(Candidate(draws[attempts - 1])) && !Contains(db.rows, code.value)
    ensures match FirstFree(db.rows, draws, 0)
              case None => code.None?
              case Some(k) => code == Some(Candidate(draws[k])) && attempts == k + 1
  {
    code := None;
    attempts := 0;
    while attempts < MaxGenerationAttempts
      invariant attempts <= MaxGenerationAttempts
      invariant forall i :: 0 <= i < attempts ==> Contains(db.rows, Candidate(draws[i]))
    {
      var candidate := Candidate(draws[attempts]);
      attempts := attempts + 1;
      var taken := db.UrlExists(candidate);
      if !taken {
        code := Some(candidate);
        break;
      }
    }
  }

  /**
   * `shorten_url`: validate the URL; take the custom code, sanitized,
   * checked for format and checked against the store, or else a generated
   * one; then insert. The answer is the one Decide gives, a short URL comes
   * only from a successful insert, and every error leaves the store as it was.
   */
  method ShortenUrl(db: Database, baseDomain: string, url: string, customCode: string,
                    isUrl: string -> bool, draws: seq<CodeDraw>)
    returns (outcome: ShortenOutcome)
    requires db.Valid()
    requires AreDefaultDraws(draws)
    modifies db`rows, db`nextId
    ensures db.Valid()
    ensures outcome == Decide(old(db.rows), baseDomain, url, customCode, isUrl, draws)
    ensures !outcome.Shortened? ==> db.rows == old(db.rows) && db.nextId == old(db.nextId)
    ensures outcome.Shortened? ==>
              && db.rows == old(db.rows) + [UrlRow(old(db.nextId), outcome.shortCode, outcome.originalUrl, db.clock, 0)]
              && db.nextId == old(db.nextId) + 1
  {
    var check := ValidateUrl(url, isUrl);
    if check.UrlRejected? {
      return InvalidUrl(check.message);
    }
    var originalUrl := check.url;

    var shortCode: string;
    if customCode != [] {
      shortCode := SanitizeCustomCode(customCode);
      if !IsValidShortCode(shortCode) {
        return InvalidCustomCode;
      }
      var taken := db.UrlExists(shortCode);
      if taken {
        return CustomCodeTaken;
      }
    } else {
      var picked, attempts := PickFreeCode(db, draws);
      if picked.None? {
        return GenerationExhausted;
      }
      shortCode := picked.value;
    }

    var success := db.CreateUrl(shortCode, originalUrl);
    outcome := if success then Shortened(FormatShortUrl(baseDomain, shortCode), shortCode, originalUrl)
               else CreateFailed;
  }

  /* Properties of the decision procedure. */

  /** A blank or unacceptable URL is refused with the message `validate_url` gave, before any code is looked at. */
  lemma DecideInvalidUrl(rows: seq<UrlRow>, baseDomain: string, url: string, customCode: string,
                         isUrl: string -> bool, draws: seq<CodeDraw>)
    requires AreDefaultDraws(draws)
    ensures var o := Decide(rows, baseDomain, url, customCode, isUrl, draws);
            o.InvalidUrl? <==> ValidateUrl(url, isUrl).UrlRejected?
    ensures ValidateUrl(url, isUrl).UrlRejected? ==>
              Decide(rows, baseDomain, url, customCode, isUrl, draws) == InvalidUrl(ValidateUrl(url, isUrl).message)
    ensures Strip(url) == [] ==> Decide(rows, baseDomain, url, customCode, isUrl, draws) == InvalidUrl(UrlRequiredMessage)
  {
  }

  /**
   * A custom code is refused for its format exactly when, once sanitized, it
   * fails the format gate; it is refused as taken exactly when it passes the
   * gate and the table already holds it.
   */
  lemma DecideCustomCode(rows: seq<UrlRow>, baseDomain: string, url: string, customCode: string,
                         isUrl: string -> bool, draws: seq<CodeDraw>)
    requires AreDefaultDraws(draws)
    requires ValidateUrl(url, isUrl).UrlAccepted? && customCode != []
    ensures var o, code := Decide(rows, baseDomain, url, customCode, isUrl, draws), SanitizeCustomCode(customCode);
            && (o.InvalidCustomCode? <==> !IsValidShortCode(code))
            && (o.CustomCodeTaken? <==> IsValidShortCode(code) && Contains(rows, code))
            && (o.Shortened? <==> IsValidShortCode(code) && !Contains(rows, code))
            && (o.Shortened? ==> o.shortCode == code)
  {
  }

  /**
   * Without a custom code, generation gives up exactly when all the
   * candidates are taken, and otherwise uses the first free one.
   */
  lemma DecideGenerated(rows: seq<UrlRow>, baseDomain: string, url: string,
                        isUrl: string -> bool, draws: seq<CodeDraw>)
    requires AreDefaultDraws(draws)
    requires ValidateUrl(url, isUrl).UrlAccepted?
    ensures var o := Decide(rows, baseDomain, url, [], isUrl, draws);
            && (o.GenerationExhausted? <==> forall i :: 0 <= i < |draws| ==> Contains(rows, Candidate(draws[i])))
            && (o.Shortened? <==> !o.GenerationExhausted?)
            && (o.Shortened? ==>
                  exists k :: 0 <= k < |draws| && o.shortCode == Candidate(draws[k])
                    && !Contains(rows, Candidate(draws[k]))
                    && forall i :: 0 <= i < k ==> Contains(rows, Candidate(draws[i])))
  {
    match FirstFree(rows, draws, 0)
    case None =>
    case Some(k) =>
      assert Decide(rows, baseDomain, url, [], isUrl, draws).shortCode == Candidate(draws[k]);
  }

  /**
   * Every short URL handed out is for a well-formed code the table did not
   * hold, under the URL `validate_url` accepted, and reads as the formatted
   * short URL of that code; the handler never reports a failed insert.
   */
  lemma DecideShortened(rows: seq<UrlRow>, baseDomain: string, url: string, customCode: string,
                        isUrl: string -> bool, draws: seq<CodeDraw>)
    requires AreDefaultDraws(draws)
    ensures !Decide(rows, baseDomain, url, customCode, isUrl, draws).CreateFailed?
    ensures var o := Decide(rows, baseDomain, url, customCode, isUrl, draws);
            o.Shortened? ==>
              && IsValidShortCode(o.shortCode)
              && !Contains(rows, o.shortCode)
              && ValidateUrl(url, isUrl) == UrlAccepted(o.originalUrl)
              && o.shortUrl == FormatShortUrl(baseDomain, o.shortCode)
  {
    var o := Decide(rows, baseDomain, url, customCode, isUrl, draws);
    if o.Shortened? && customCode == [] {
      var k := FirstFree(rows, draws, 0).value;
      GeneratedCodeIsValid(draws[k]);
    }
  }

  /** Inserting through the handler keeps every stored code well-formed. */
  lemma ShortenKeepsCodesValid(rows: seq<UrlRow>, o: ShortenOutcome, id: nat, at: nat,
                               baseDomain: string, url: string, customCode: string,
                               isUrl: string -> bool, draws: seq<CodeDraw>)
    requires AreDefaultDraws(draws)
    requires AllCodesValid(rows)
    requires o == Decide(rows, baseDomain, url, customCode, isUrl, draws) && o.Shortened?
    ensures AllCodesValid(rows + [UrlRow(id, o.shortCode, o.originalUrl, at, 0)])
  {
    DecideShortened(rows, baseDomain, url, customCode, isUrl, draws);
  }

  /**
   * `redirect_to_url`: a code that fails the format gate is answered 404
   * without touching the store; otherwise the lookup counts one click and
   * the visitor is sent to the stored URL, or gets a 404 if there is none.
   */
  method RedirectToUrl(db: Database, shortCode: string) returns (outcome: RedirectOutcome)
    requires db.Valid()
    modifies db`rows
    ensures db.Valid()
    ensures Evolves(old(db.rows), db.rows)
    ensures !IsValidShortCode(shortCode) ==> outcome == NotFound(InvalidCodeDetail) && db.rows == old(db.rows)
    ensures IsValidShortCode(shortCode) ==>
              match old(Find(db.rows, shortCode))
                case None => outcome == NotFound(UnknownCodeDetail) && db.rows == old(db.rows)
                case Some(k) => outcome == Redirect(old(db.rows)[k].originalUrl) && db.rows == Clicked(old(db.rows), k)
    ensures outcome.Redirect? <==> IsValidShortCode(shortCode) && Contains(old(db.rows), shortCode)
  {
    if !IsValidShortCode(shortCode) {
      return NotFound(InvalidCodeDetail);
    }
    var data := db.GetUrl(shortCode);
    if data.None? {
      return NotFound(UnknownCodeDetail);
    }
    outcome := Redirect(data.value.originalUrl);
  }

  /**
   * A short URL, once created, redirects to the URL it was created for, and
   * that visit is the first click it records.
   */
  method ShortenThenRedirect(db: Database, baseDomain: string, url: string, customCode: string,
                             isUrl: string -> bool, draws: seq<CodeDraw>)
    returns (created: ShortenOutcome, visited: RedirectOutcome)
    requires db.Valid()
    requires AreDefaultDraws(draws)
    modifies db`rows, db`nextId
    ensures db.Valid()
    ensures created == Decide(old(db.rows), baseDomain, url, customCode, isUrl, draws)
    ensures created.Shortened? ==>
              && visited == Redirect(created.originalUrl)
              && db.rows == old(db.rows) + [UrlRow(old(db.nextId), created.shortCode, created.originalUrl, db.clock, 1)]
              && db.nextId == old(db.nextId) + 1
    ensures !created.Shortened? ==> db.rows == old(db.rows) && db.nextId == old(db.nextId)
  {
    ghost var before := db.rows;
    created := ShortenUrl(db, baseDomain, url, customCode, isUrl, draws);
    if created.Shortened? {
      DecideShortened(before, baseDomain, url, customCode, isUrl, draws);
      var code := created.shortCode;
      assert IsValidShortCode(code);
      ghost var k := |db.rows| - 1;
      ghost var row := UrlRow(old(db.nextId), code, created.originalUrl, db.clock, 0);
      assert db.rows == before + [row] && k == |before|;
      assert db.rows[k] == row;
      FindUnique(db.rows, code, k);
      ClickedLast(before, row);
      visited := RedirectToUrl(db, code);
    } else {
      visited := NotFound(UnknownCodeDetail);
    }
  }
}
