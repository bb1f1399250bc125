/**
 * `applyDefaultParams` and `getDownloadUrl`, with PHP's `rawurlencode`
 * (RFC 3986 percent-encoding) that the export URL goes through.
 */
module Api {
  import opened Common
  import opened Text
  import opened Drive

  /**
   * `applyDefaultParams($params, $cmdName)`: `array_replace` of the command's
   * configured defaults by the explicit parameters. Explicit parameters
   * always win; defaults only fill keys the call did not set; a command
   * without defaults passes its parameters through.
   */
  function ApplyDefaultParams(defaultParams: map<string, Params>, params: Params, cmdName: string): (r: Params)
    ensures cmdName !in defaultParams ==> r == params
    ensures cmdName in defaultParams ==> r.Keys == defaultParams[cmdName].Keys + params.Keys
    ensures forall k :: k in params ==> k in r && r[k] == params[k]
    ensures forall k :: k in r && k !in params ==> cmdName in defaultParams && k in defaultParams[cmdName] && r[k] == defaultParams[cmdName][k]
  {
    if cmdName in defaultParams then defaultParams[cmdName] + params else params
  }

  /** Applying the defaults a second time changes nothing. */
  lemma ApplyDefaultParamsIdempotent(defaultParams: map<string, Params>, params: Params, cmdName: string)
    ensures var once := ApplyDefaultParams(defaultParams, params, cmdName);
      ApplyDefaultParams(defaultParams, once, cmdName) == once
  {
    var once := ApplyDefaultParams(defaultParams, params, cmdName);
    var twice := ApplyDefaultParams(defaultParams, once, cmdName);
    assert twice.Keys == once.Keys;
  }

  const FilesEndpoint := "https://www.googleapis.com/drive/v3/files/"
  const GoogleAppsPrefix := "application/vnd.google-apps"

  /** The export format for a Google Apps MIME type: its `appsExportMap` entry, else the "default" one. */
  function ExportMime(appsExportMap: map<string, string>, mimeType: string): (r: string)
    requires "default" in appsExportMap
    ensures mimeType in appsExportMap ==> r == appsExportMap[mimeType]
    ensures mimeType !in appsExportMap ==> r == appsExportMap["default"]
  {
    if mimeType in appsExportMap then appsExportMap[mimeType] else appsExportMap["default"]
  }

  /**
   * `getDownloadUrl($file)`: a file whose MIME type does not start with
   * "application/vnd.google-apps" is downloaded as media; a Google Apps
   * document is exported to its mapped format.
   */
  function GetDownloadUrl(file: DriveFile, appsExportMap: map<string, string>): string
    requires "default" in appsExportMap
  {
    if !StartsWith(file.mimeType, GoogleAppsPrefix) then
      FilesEndpoint + file.id + "?alt=media"
    else
      FilesEndpoint + file.id + "/export?mimeType=" + RawUrlEncode(ExportMime(appsExportMap, file.mimeType))
  }

  /**
   * Native files get the media URL and Google Apps documents the export URL,
   * whose query value decodes back to the export format chosen for them.
   */
  lemma DownloadUrlChoice(file: DriveFile, appsExportMap: map<string, string>)
    requires "default" in appsExportMap
    ensures var url := GetDownloadUrl(file, appsExportMap);
      var base := FilesEndpoint + file.id;
      && StartsWith(url, base)
      && (!StartsWith(file.mimeType, GoogleAppsPrefix) ==> url[|base|..] == "?alt=media")
      && (StartsWith(file.mimeType, GoogleAppsPrefix) ==>
            var query := "/export?mimeType=";
            && StartsWith(url[|base|..], query)
            && RawUrlDecode(url[|base| + |query|..]) == ExportMime(appsExportMap, file.mimeType))
  {
    var url := GetDownloadUrl(file, appsExportMap);
    var base := FilesEndpoint + file.id;
    if StartsWith(file.mimeType, GoogleAppsPrefix) {
      var query := "/export?mimeType=";
      var target := ExportMime(appsExportMap, file.mimeType);
      assert url == base + query + RawUrlEncode(target);
      assert url[|base| + |query|..] == RawUrlEncode(target);
      UrlRoundTrip(target);
    }
  }

  /** The characters `rawurlencode` leaves alone (RFC 3986 "unreserved"). */
  predicate Unreserved(c: char) {
    ('A' <= c <= 'Z') || ('a' <= c <= 'z') || ('0' <= c <= '9') || c == '-' || c == '_' || c == '.' || c == '~'
  }

  function HexDigit(n: nat): (c: char)
    requires n < 16
  {
    if n < 10 then ('0' as int + n) as char else ('A' as int + n - 10) as char
  }

  predicate IsHex(c: char) {
    ('0' <= c <= '9') || ('A' <= c <= 'F') || ('a' <= c <= 'f')
  }

  function HexValue(c: char): (n: nat)
    requires IsHex(c)
    ensures n < 16
  {
    if '0' <= c <= '9' then c as int - '0' as int
    else if 'A' <= c <= 'F' then c as int - 'A' as int + 10
    else c as int - 'a' as int + 10
  }

  /**
   * Percent-encoding of one byte. Characters stand for bytes here, so
   * values above 255 do not arise; they are passed through unchanged.
   */
  function EncodeChar(c: char): string
  {
    if Unreserved(c) || c as int >= 256 then [c]
    else ['%', HexDigit(c as int / 16), HexDigit(c as int % 16)]
  }

  /** PHP `rawurlencode`. */
  function RawUrlEncode(s: string): string
  {
    if s == [] then [] else EncodeChar(s[0]) + RawUrlEncode(s[1..])
  }

  /** PHP `rawurldecode`: `%XX` becomes the byte XX, anything else stays. */
  function RawUrlDecode(s: string): string
  {
    if s == [] then []
    else if |s| >= 3 && s[0] == '%' && IsHex(s[1]) && IsHex(s[2]) then
      [(HexValue(s[1]) * 16 + HexValue(s[2])) as char] + RawUrlDecode(s[3..])
    else [s[0]] + RawUrlDecode(s[1..])
  }

  /** Decoding undoes encoding. */
  lemma {:induction false} UrlRoundTrip(s: string)
    ensures RawUrlDecode(RawUrlEncode(s)) == s
  {
    if s != [] {
      var c := s[0];
      var rest := RawUrlEncode(s[1..]);
      assert RawUrlEncode(s) == EncodeChar(c) + rest;
      UrlRoundTrip(s[1..]);
      var e := EncodeChar(c) + rest;
      if Unreserved(c) || c as int >= 256 {
        assert e[0] == c && e[1..] == rest;
      } else {
        var hi, lo := c as int / 16, c as int % 16;
        assert HexValue(HexDigit(hi)) == hi;
        assert HexValue(HexDigit(lo)) == lo;
        assert e[0] == '%' && e[1] == HexDigit(hi) && e[2] == HexDigit(lo) && e[3..] == rest;
        assert (hi * 16 + lo) as char == c;
      }
    }
  }
}
