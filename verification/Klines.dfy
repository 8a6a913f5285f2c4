/** The kline record. Prices, volumes and trade counts are never computed with,
    so they are carried as one uninterpreted payload. */
module Klines {
  import opened Calendar

  datatype Kline = Kline(
    time: Time,
    symbol: string,
    market: string,
    exchange: string,
    interval: string,
    openTime: Time,
    closeTime: Time,
    payload: string)
}
